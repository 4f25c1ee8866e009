/**
 * Shared vocabulary of the four snooping protocols (MSI, MESI, MOSI, MOESIF):
 * the message kinds a line controller receives, the effects a handler may
 * have on the bus and on the global statistics, and the outcome of one
 * handler call (a fatal protocol violation, or a next state with its effects).
 */
module Coherence {

  /** Kinds of a request: LOAD/STORE come from the processor, GETS/GETM/DATA from the bus. */
  datatype Msg = Load | Store | GetS | GetM | Data

  predicate IsProcessorMsg(m: Msg) { m == Load || m == Store }

  /** The single bus message a handler may emit (send_GETS, send_GETM, send_DATA_on_bus). */
  datatype BusMsg = NoBus | BusGetS | BusGetM | BusData

  /**
   * Everything a handler does besides changing the line's state:
   * the bus message it emits, whether it calls set_shared_line(), whether it
   * calls send_DATA_to_proc(), and how much it adds to Sim->cache_misses and
   * Sim->silent_upgrades.
   */
  datatype Effect = Effect(bus: BusMsg, assertShared: bool, dataToProc: bool,
                           dMisses: nat, dUpgrades: nat)

  /** fatal_error(...) becomes Fatal; every other handler run yields the next state and its effects. */
  datatype Outcome<S> = Fatal | Ok(next: S, eff: Effect)

  /** A handler that does nothing at all (an ignored snoop). */
  const Quiet := Effect(NoBus, false, false, 0, 0)

  /** A processor hit: the data goes back to the processor, nothing else happens. */
  const Hit := Effect(NoBus, false, true, 0, 0)

  /** A miss: the request goes on the bus and Sim->cache_misses grows by one. */
  function Miss(b: BusMsg): Effect { Effect(b, false, false, 1, 0) }

  /** Silent upgrade (E -> M on a store): data to the processor, Sim->silent_upgrades grows by one. */
  const Upgrade := Effect(NoBus, false, true, 0, 1)

  /** A snooper supplying the line on the bus, with or without asserting the shared line. */
  function Supply(shared: bool): Effect { Effect(BusData, shared, false, 0, 0) }

  /** Only the shared line is asserted. */
  const AssertShared := Effect(NoBus, true, false, 0, 0)

  /** DATA arrived for the pending request: it is forwarded to the processor. */
  const Deliver := Effect(NoBus, false, true, 0, 0)

  /** The two global statistics counters of the simulator that the handlers increment. */
  class Simulator {
    var cacheMisses: nat
    var silentUpgrades: nat

    constructor ()
      ensures cacheMisses == 0 && silentUpgrades == 0
    {
      cacheMisses, silentUpgrades := 0, 0;
    }

    /** Adds a handler's counter increments. */
    method Account(e: Effect)
      modifies this
      ensures cacheMisses == old(cacheMisses) + e.dMisses
      ensures silentUpgrades == old(silentUpgrades) + e.dUpgrades
    {
      cacheMisses := cacheMisses + e.dMisses;
      silentUpgrades := silentUpgrades + e.dUpgrades;
    }
  }
}
