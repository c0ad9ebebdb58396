/**
  The report rules of `main` in port_scanner.py: which sections are shown,
  the order in which records are listed, and the `lsof` lookups issued for
  the listening ports.
 */
module Report {
  import opened Wrappers
  import opened PyStr
  import opened PortScanner
  import opened Sorting

  /** The command-line options `-l`, `-c`, `-p` and `-o`. */
  datatype Options = Options(listening: bool, connections: bool, processes: bool, output: Option<string>)

  /** With neither `-l` nor `-c`, both sections are shown; otherwise the
      options stay as given. `-p` and `-o` are never touched. */
  function WithDefaultSections(args: Options): (r: Options)
    ensures r.listening || r.connections
    ensures !(args.listening || args.connections) ==> r.listening && r.connections
    ensures args.listening || args.connections ==> r == args
    ensures r.processes == args.processes && r.output == args.output
  {
    if !(args.listening || args.connections) then args.(listening := true, connections := true)
    else args
  }

  /** `int(x['port'])`; the sort is only reached when it is defined. */
  function PortValue(p: ListeningPort): int {
    match ParseInt(p.port)
    case Some(n) => n
    case None => 0
  }

  /** `int(x['local_port'])`; the sort is only reached when it is defined. */
  function LocalPortValue(c: EstablishedConnection): int {
    match ParseInt(c.localPort)
    case Some(n) => n
    case None => 0
  }

  /** The sort key of a listening port written as `str(n)` is `n`. */
  lemma {:induction false} PortKeyOfText(p: ListeningPort, n: int)
    requires p.port == ShowInt(n)
    ensures PortValue(p) == n
  {
    ParseShowInt(n);
  }

  /** The sort key of a connection whose local port is written as `str(n)` is `n`. */
  lemma {:induction false} LocalPortKeyOfText(c: EstablishedConnection, n: int)
    requires c.localPort == ShowInt(n)
    ensures LocalPortValue(c) == n
  {
    ParseShowInt(n);
  }

  /** `sorted(listening_ports, key=lambda x: int(x['port']))`. Python raises
      on a port `int()` rejects, so every port must parse. The result is a
      permutation of the input, ascending by port number, and records with
      the same port number keep their order. */
  function SortListening(ports: seq<ListeningPort>): (r: seq<ListeningPort>)
    requires forall p :: p in ports ==> ParseInt(p.port).Some?
    ensures |r| == |ports| && multiset(r) == multiset(ports)
    ensures forall i, j :: 0 <= i < j < |r| ==> PortValue(r[i]) <= PortValue(r[j])
    ensures forall n :: WithKey(r, PortValue, n) == WithKey(ports, PortValue, n)
  {
    var r := SortBy(ports, PortValue);
    assert |multiset(r)| == |multiset(ports)|;
    SortByStable(ports, PortValue);
    r
  }

  /** `sorted(established_conns, key=lambda x: int(x['local_port']))`, with
      the same guarantees as `SortListening`. */
  function SortConnections(conns: seq<EstablishedConnection>): (r: seq<EstablishedConnection>)
    requires forall c :: c in conns ==> ParseInt(c.localPort).Some?
    ensures |r| == |conns| && multiset(r) == multiset(conns)
    ensures forall i, j :: 0 <= i < j < |r| ==> LocalPortValue(r[i]) <= LocalPortValue(r[j])
    ensures forall n :: WithKey(r, LocalPortValue, n) == WithKey(conns, LocalPortValue, n)
  {
    var r := SortBy(conns, LocalPortValue);
    assert |multiset(r)| == |multiset(conns)|;
    SortByStable(conns, LocalPortValue);
    r
  }

  /** The `lsof` argument vectors for a list of listening ports, one per port, in order. */
  function LookupArgvs(ports: seq<ListeningPort>): (r: seq<seq<string>>)
    ensures |r| == |ports|
  {
    if ports == [] then []
    else
      var last := ports[|ports| - 1];
      LookupArgvs(ports[..|ports| - 1]) + [LsofArgv(last.port, last.protocol)]
  }

  lemma {:induction false} LookupArgvsAt(ports: seq<ListeningPort>, k: nat)
    requires k < |ports|
    ensures LookupArgvs(ports)[k] == LsofArgv(ports[k].port, ports[k].protocol)
  {
    var n := |ports| - 1;
    if k < n {
      LookupArgvsAt(ports[..n], k);
    }
  }

  lemma {:induction false} LookupArgvsStep(ports: seq<ListeningPort>, k: nat)
    requires k < |ports|
    ensures LookupArgvs(ports[..k + 1]) == LookupArgvs(ports[..k]) + [LsofArgv(ports[k].port, ports[k].protocol)]
  {
    assert ports[..k + 1][..k] == ports[..k];
  }

  /** With `-p`, the loop over the sorted listening ports issues one `lsof`
      lookup per port, in report order. */
  method ProcessLookups(ports: seq<ListeningPort>) returns (lookups: seq<seq<string>>)
    requires forall p :: p in ports ==> ParseInt(p.port).Some?
    ensures |lookups| == |ports|
    ensures lookups == LookupArgvs(SortListening(ports))
  {
    var sorted := SortListening(ports);
    lookups := [];
    for k := 0 to |sorted|
      invariant lookups == LookupArgvs(sorted[..k])
    {
      LookupArgvsStep(sorted, k);
      var portInfo := sorted[k];
      lookups := lookups + [LsofArgv(portInfo.port, portInfo.protocol)];
    }
    assert sorted[..|sorted|] == sorted;
  }

  /** Every lookup issued for a parsed listening port names that port's
      protocol selector and the port itself, recoverable by a last-`:` split. */
  lemma {:induction false} LookupTargetsRecoverPorts(output: string, k: nat)
    requires forall p :: p in ListeningPorts(output) ==> ParseInt(p.port).Some?
    requires k < |ListeningPorts(output)|
    ensures var p := SortListening(ListeningPorts(output))[k];
            RSplit(LsofArgv(p.port, p.protocol)[3], ':') == Some((ProtoArg(p.protocol), p.port))
  {
    var ports := ListeningPorts(output);
    var p := SortListening(ports)[k];
    assert p in multiset(ports);
    ListeningPortsNoColon(output);
    LsofTargetSplits(p.port, p.protocol);
  }
}
