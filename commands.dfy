/**
 * The operating-system commands the appliers issue, and the runner that executes them.
 * Execution itself is outside the model: whether a command succeeds is decided by an
 * oracle over the history of commands issued so far.
 */
module Commands {

  /** The commands the appliers issue. */
  datatype Command =
    | Ifconfig(name: string, address: string)       // bring the interface up with an address
    | DefaultRoute(gateway: string, name: string)   // install a default route through the gateway
    | Pump(name: string)                            // run the DHCP client on the interface
    | StartHotspot(name: string, address: string)   // start the DHCP service of a hotspot

  /** The histories whose last command succeeds. Deciding on the whole history lets the
      same command succeed once and fail later, as a real system may. */
  type Oracle = iset<seq<Command>>

  /** The script that starts the DHCP service for an ethernet hotspot. */
  const HotspotScript: string := "/usr/local/share/wifibroadcast-scripts/ethernet_hotspot.sh"

  /** The executable and argument vector each command is run as. */
  function Argv(c: Command): (string, seq<string>)
  {
    match c
    case Ifconfig(name, address) => ("ifconfig", [name, address, "up"])
    case DefaultRoute(gateway, name) => ("ip", ["route", "add", "default", "via", gateway, "dev", name])
    case Pump(name) => ("pump", ["-i", name, "--no-ntp"])
    case StartHotspot(name, address) => ("/bin/bash", [HotspotScript, name, address])
  }

  /** Whether a command starts the hotspot service. */
  predicate IsHotspotStart(c: Command)
  {
    Argv(c).0 == "/bin/bash" && |Argv(c).1| > 0 && Argv(c).1[0] == HotspotScript
  }

  /** The command line identifies the command: no two commands run as the same argv,
      and only StartHotspot runs the hotspot script. */
  lemma ArgvInjective(c: Command, d: Command)
    ensures Argv(c) == Argv(d) ==> c == d
    ensures IsHotspotStart(c) <==> c.StartHotspot?
  {
    if Argv(c) == Argv(d) {
      assert Argv(c).1[1] == Argv(d).1[1];
    }
  }

  /** How many hotspot-service starts in a history succeeded. */
  function CompletedHotspots(trace: seq<Command>, oracle: Oracle): nat
  {
    if trace == [] then 0
    else
      CompletedHotspots(trace[..|trace| - 1], oracle)
        + (if IsHotspotStart(trace[|trace| - 1]) && (trace in oracle) then 1 else 0)
  }

  /** Issuing a command records one more completed hotspot exactly when it is a
      hotspot start that succeeds. */
  lemma CompletedHotspotsStep(trace: seq<Command>, c: Command, oracle: Oracle)
    ensures CompletedHotspots(trace + [c], oracle)
         == CompletedHotspots(trace, oracle) + (if IsHotspotStart(c) && (trace + [c] in oracle) then 1 else 0)
  {
    assert (trace + [c])[..|trace|] == trace;
  }

  /**
   * The process-execution facility. `issued` is every command run so far, in order.
   */
  class CommandRunner {
    const oracle: Oracle
    var issued: seq<Command>

    constructor (oracle: Oracle)
      ensures this.oracle == oracle && issued == []
    {
      this.oracle := oracle;
      issued := [];
    }

    /** Runs `c` as its argv and reports whether it succeeded. */
    method Run(c: Command) returns (ok: bool)
      modifies this
      ensures issued == old(issued) + [c]
      ensures ok == (issued in oracle)
    {
      issued := issued + [c];
      ok := issued in oracle;
    }
  }
}
