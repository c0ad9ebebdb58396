/**
  The record parsers of port_scanner.py: `ss -tuln` output to listening
  ports, `ss -tun state established` output to connections, `lsof -i`
  output to process records; and the argument vector of the `lsof` lookup.
 */
module PortScanner {
  import opened Wrappers
  import opened PyStr

  /** A socket waiting for connections. */
  datatype ListeningPort = ListeningPort(protocol: string, localAddress: string, port: string)

  /** A connected socket with both endpoints. */
  datatype EstablishedConnection = EstablishedConnection(
    protocol: string,
    localAddress: string, localPort: string,
    remoteAddress: string, remotePort: string)

  /** One row of `lsof` output; the SIZE/OFF column is not kept. */
  datatype ProcessInfo = ProcessInfo(
    command: string, pid: string, user: string, fd: string,
    fileType: string, device: string, protocol: string, address: string)

  // ---------------------------------------------------------------------
  // Lines and the header rule

  /** The lines every parser walks: `output.strip().split('\n')`, minus the
      first line when there is more than one. */
  function DataLines(output: string): (r: seq<string>)
    ensures |r| >= 1
    ensures forall l :: l in r ==> '\n' !in l
  {
    var lines := Split(Strip(output), '\n');
    SplitPieces(Strip(output), '\n');
    if |lines| > 1 then lines[1..] else lines
  }

  /** The first line is discarded exactly when the stripped text has a
      newline; it is then everything up to the first newline, and the data
      lines are the text after it. */
  lemma {:induction false} HeaderLine(output: string)
    ensures var t := Strip(output);
            var lines := Split(t, '\n');
            && ('\n' in t <==> |lines| > 1)
            && ('\n' in t ==> '\n' !in lines[0] && t == lines[0] + "\n" + Join(DataLines(output), '\n'))
            && ('\n' !in t ==> DataLines(output) == [t])
  {
    var t := Strip(output);
    var lines := Split(t, '\n');
    JoinSplit(t, '\n');
    SplitPieces(t, '\n');
    assert lines[0] in lines;
    if '\n' !in t {
      SplitNoSep(t, '\n');
    }
  }

  /** Empty or whitespace-only output (the fallback of a failed command)
      leaves a single empty line. */
  lemma {:induction false} BlankOutputLines(output: string)
    requires AllSpace(output)
    ensures DataLines(output) == [""]
  {
    assert Strip(output) == [];
  }

  // ---------------------------------------------------------------------
  // The loop shape shared by the three parsers: walk the lines in order and
  // append one record for every line the per-line rule accepts.

  function Collect<T>(lines: seq<string>, f: string -> Option<T>): (r: seq<T>)
    ensures |r| <= |lines|
  {
    if lines == [] then []
    else
      var init := Collect(lines[..|lines| - 1], f);
      match f(lines[|lines| - 1])
      case Some(x) => init + [x]
      case None => init
  }

  /** One more line appends that line's record, if it has one. */
  lemma {:induction false} CollectStep<T>(lines: seq<string>, i: nat, f: string -> Option<T>)
    requires i < |lines|
    ensures f(lines[i]).Some? ==> Collect(lines[..i + 1], f) == Collect(lines[..i], f) + [f(lines[i]).value]
    ensures f(lines[i]).None? ==> Collect(lines[..i + 1], f) == Collect(lines[..i], f)
  {
    assert lines[..i + 1][..i] == lines[..i];
  }

  /** The positions of the accepted lines, in the order `Collect` visits them. */
  ghost function Origins<T>(lines: seq<string>, f: string -> Option<T>): seq<nat> {
    if lines == [] then []
    else
      var init := Origins(lines[..|lines| - 1], f);
      if f(lines[|lines| - 1]).Some? then init + [|lines| - 1] else init
  }

  /** `r` lists the records of the lines at positions `o`: the k-th record
      comes from the k-th of these lines, the positions increase, and every
      line with a record is among them. */
  ghost predicate Accounts<T>(lines: seq<string>, f: string -> Option<T>, r: seq<T>, o: seq<nat>) {
    && |o| == |r|
    && (forall k :: 0 <= k < |o| ==> o[k] < |lines| && f(lines[o[k]]) == Some(r[k]))
    && (forall k, m :: 0 <= k < m < |o| ==> o[k] < o[m])
    && (forall j :: 0 <= j < |lines| && f(lines[j]).Some? ==> j in o)
  }

  lemma {:induction false} AccountsAccept<T>(lines: seq<string>, f: string -> Option<T>, r: seq<T>, o: seq<nat>)
    requires lines != [] && f(lines[|lines| - 1]).Some?
    requires Accounts(lines[..|lines| - 1], f, r, o)
    ensures Accounts(lines, f, r + [f(lines[|lines| - 1]).value], o + [|lines| - 1])
  {
    var n := |lines| - 1;
    assert forall j :: 0 <= j < n ==> lines[j] == lines[..n][j];
  }

  lemma {:induction false} AccountsSkip<T>(lines: seq<string>, f: string -> Option<T>, r: seq<T>, o: seq<nat>)
    requires lines != [] && f(lines[|lines| - 1]).None?
    requires Accounts(lines[..|lines| - 1], f, r, o)
    ensures Accounts(lines, f, r, o)
  {
    var n := |lines| - 1;
    assert forall j :: 0 <= j < n ==> lines[j] == lines[..n][j];
  }

  /** `Collect` keeps exactly the records of the accepted lines, in line order. */
  lemma {:induction false} CollectOrigins<T>(lines: seq<string>, f: string -> Option<T>)
    ensures Accounts(lines, f, Collect(lines, f), Origins(lines, f))
  {
    if lines != [] {
      var n := |lines| - 1;
      CollectOrigins(lines[..n], f);
      if f(lines[n]).Some? {
        AccountsAccept(lines, f, Collect(lines[..n], f), Origins(lines[..n], f));
      } else {
        AccountsSkip(lines, f, Collect(lines[..n], f), Origins(lines[..n], f));
      }
    }
  }

  // ---------------------------------------------------------------------
  // parse_listening_ports

  /** One line of `ss -tuln` output: at least five tokens, the fifth of
      which holds a `:`, split at its last `:` into address and port. */
  function ListeningRecord(line: string): (r: Option<ListeningPort>)
    ensures var parts := Words(line);
            && (r.Some? <==> |parts| >= 5 && ':' in parts[4])
            && (r.Some? ==> && r.value.localAddress + ":" + r.value.port == parts[4]
                            && ':' !in r.value.port
                            && r.value.protocol == Lower(parts[0]))
  {
    var parts := Words(line);
    if |parts| >= 5 && ':' in parts[4] then
      var (ip, port) := RSplit(parts[4], ':').value;
      Some(ListeningPort(Lower(parts[0]), ip, port))
    else None
  }

  function ListeningPorts(output: string): seq<ListeningPort> {
    Collect(DataLines(output), ListeningRecord)
  }

  method ParseListeningPorts(output: string) returns (listeningPorts: seq<ListeningPort>)
    ensures listeningPorts == ListeningPorts(output)
  {
    listeningPorts := [];
    var lines := Split(Strip(output), '\n');
    if |lines| > 1 {
      lines := lines[1..];
    }
    for i := 0 to |lines|
      invariant listeningPorts == Collect(lines[..i], ListeningRecord)
    {
      CollectStep(lines, i, ListeningRecord);
      var parts := Words(lines[i]);
      if |parts| >= 5 {
        var protocol := Lower(parts[0]);
        var localAddr := parts[4];
        if ':' in localAddr {
          var (ip, port) := RSplit(localAddr, ':').value;
          assert ListeningRecord(lines[i]) == Some(ListeningPort(protocol, ip, port));
          listeningPorts := listeningPorts + [ListeningPort(protocol, ip, port)];
        } else {
          assert ListeningRecord(lines[i]) == None;
        }
      } else {
        assert ListeningRecord(lines[i]) == None;
      }
    }
    assert lines[..|lines|] == lines;
  }

  /** Every listening record comes, in line order, from a data line with at
      least five tokens whose fifth token is the record's address, `:` and
      port; every such line yields a record. */
  lemma {:induction false} ListeningPortsFromLines(output: string)
    ensures var lines, ports := DataLines(output), ListeningPorts(output);
            var o := Origins(lines, ListeningRecord);
            && |o| == |ports| <= |lines|
            && (forall k, m :: 0 <= k < m < |o| ==> o[k] < o[m])
            && (forall k :: 0 <= k < |o| ==>
                  && o[k] < |lines| && |Words(lines[o[k]])| >= 5
                  && ports[k].localAddress + ":" + ports[k].port == Words(lines[o[k]])[4]
                  && ':' !in ports[k].port
                  && ports[k].protocol == Lower(Words(lines[o[k]])[0]))
            && (forall j :: 0 <= j < |lines| && |Words(lines[j])| >= 5 && ':' in Words(lines[j])[4] ==> j in o)
  {
    var lines := DataLines(output);
    CollectOrigins(lines, ListeningRecord);
    var o := Origins(lines, ListeningRecord);
    forall k | 0 <= k < |o| ensures ListeningRecord(lines[o[k]]).Some? {
    }
  }

  /** The port of a listening record never contains `:`, since the split is at the last one. */
  lemma {:induction false} ListeningPortsNoColon(output: string)
    ensures forall p :: p in ListeningPorts(output) ==> ':' !in p.port
  {
    var lines, ports := DataLines(output), ListeningPorts(output);
    CollectOrigins(lines, ListeningRecord);
    var o := Origins(lines, ListeningRecord);
    forall p | p in ports ensures ':' !in p.port {
      var k :| 0 <= k < |ports| && ports[k] == p;
      assert ListeningRecord(lines[o[k]]) == Some(p);
    }
  }

  // ---------------------------------------------------------------------
  // parse_established_connections

  /** One line of `ss -tun state established` output: at least five tokens,
      the fourth (local) and fifth (remote) both holding a `:`, each split at
      its last `:`. */
  function ConnectionRecord(line: string): (r: Option<EstablishedConnection>)
    ensures var parts := Words(line);
            && (r.Some? <==> |parts| >= 5 && ':' in parts[3] && ':' in parts[4])
            && (r.Some? ==> && r.value.localAddress + ":" + r.value.localPort == parts[3]
                            && r.value.remoteAddress + ":" + r.value.remotePort == parts[4]
                            && ':' !in r.value.localPort && ':' !in r.value.remotePort
                            && r.value.protocol == Lower(parts[0]))
  {
    var parts := Words(line);
    if |parts| >= 5 && ':' in parts[3] && ':' in parts[4] then
      var (localIp, localPort) := RSplit(parts[3], ':').value;
      var (remoteIp, remotePort) := RSplit(parts[4], ':').value;
      Some(EstablishedConnection(Lower(parts[0]), localIp, localPort, remoteIp, remotePort))
    else None
  }

  function EstablishedConnections(output: string): seq<EstablishedConnection> {
    Collect(DataLines(output), ConnectionRecord)
  }

  method ParseEstablishedConnections(output: string) returns (establishedConns: seq<EstablishedConnection>)
    ensures establishedConns == EstablishedConnections(output)
  {
    establishedConns := [];
    var lines := Split(Strip(output), '\n');
    if |lines| > 1 {
      lines := lines[1..];
    }
    for i := 0 to |lines|
      invariant establishedConns == Collect(lines[..i], ConnectionRecord)
    {
      CollectStep(lines, i, ConnectionRecord);
      var parts := Words(lines[i]);
      if |parts| >= 5 {
        var protocol := Lower(parts[0]);
        var localAddr := parts[3];
        var remoteAddr := parts[4];
        if ':' in localAddr && ':' in remoteAddr {
          var (localIp, localPort) := RSplit(localAddr, ':').value;
          var (remoteIp, remotePort) := RSplit(remoteAddr, ':').value;
          var conn := EstablishedConnection(protocol, localIp, localPort, remoteIp, remotePort);
          assert ConnectionRecord(lines[i]) == Some(conn);
          establishedConns := establishedConns + [conn];
        } else {
          assert ConnectionRecord(lines[i]) == None;
        }
      } else {
        assert ConnectionRecord(lines[i]) == None;
      }
    }
    assert lines[..|lines|] == lines;
  }

  /** Every connection comes, in line order, from a data line with at least
      five tokens whose fourth and fifth tokens are the two endpoints; every
      such line yields a connection. */
  lemma {:induction false} EstablishedConnectionsFromLines(output: string)
    ensures var lines, conns := DataLines(output), EstablishedConnections(output);
            var o := Origins(lines, ConnectionRecord);
            && |o| == |conns| <= |lines|
            && (forall k, m :: 0 <= k < m < |o| ==> o[k] < o[m])
            && (forall k :: 0 <= k < |o| ==>
                  && o[k] < |lines| && |Words(lines[o[k]])| >= 5
                  && conns[k].localAddress + ":" + conns[k].localPort == Words(lines[o[k]])[3]
                  && conns[k].remoteAddress + ":" + conns[k].remotePort == Words(lines[o[k]])[4]
                  && ':' !in conns[k].localPort && ':' !in conns[k].remotePort
                  && conns[k].protocol == Lower(Words(lines[o[k]])[0]))
            && (forall j :: (0 <= j < |lines| && |Words(lines[j])| >= 5
                             && ':' in Words(lines[j])[3] && ':' in Words(lines[j])[4]) ==> j in o)
  {
    var lines := DataLines(output);
    CollectOrigins(lines, ConnectionRecord);
    var o := Origins(lines, ConnectionRecord);
    forall k | 0 <= k < |o| ensures ConnectionRecord(lines[o[k]]).Some? {
    }
  }

  // ---------------------------------------------------------------------
  // parse_process_info

  /** One line of `lsof` output: at least nine tokens, taken by position;
      the seventh (SIZE/OFF) is skipped and nothing is validated. */
  function ProcessRecord(line: string): (r: Option<ProcessInfo>)
    ensures var parts := Words(line);
            && (r.Some? <==> |parts| >= 9)
            && (r.Some? ==> r.value == ProcessInfo(parts[0], parts[1], parts[2], parts[3],
                                                   parts[4], parts[5], parts[7], parts[8]))
  {
    var parts := Words(line);
    if |parts| >= 9 then
      Some(ProcessInfo(parts[0], parts[1], parts[2], parts[3], parts[4], parts[5], parts[7], parts[8]))
    else None
  }

  function ProcessInfos(output: string): seq<ProcessInfo> {
    Collect(DataLines(output), ProcessRecord)
  }

  method ParseProcessInfo(output: string) returns (processes: seq<ProcessInfo>)
    ensures processes == ProcessInfos(output)
  {
    processes := [];
    var lines := Split(Strip(output), '\n');
    if |lines| > 1 {
      lines := lines[1..];
    }
    for i := 0 to |lines|
      invariant processes == Collect(lines[..i], ProcessRecord)
    {
      CollectStep(lines, i, ProcessRecord);
      var parts := Words(lines[i]);
      if |parts| >= 9 {
        var process := ProcessInfo(parts[0], parts[1], parts[2], parts[3],
                                   parts[4], parts[5], parts[7], parts[8]);
        assert ProcessRecord(lines[i]) == Some(process);
        processes := processes + [process];
      } else {
        assert ProcessRecord(lines[i]) == None;
      }
    }
    assert lines[..|lines|] == lines;
  }

  /** The SIZE/OFF token never reaches the record: two lines whose tokens
      differ only there give the same record. */
  lemma {:induction false} ProcessRecordIgnoresSize(a: string, b: string)
    requires |Words(a)| == |Words(b)| >= 9
    requires forall i :: 0 <= i < |Words(a)| && i != 6 ==> Words(a)[i] == Words(b)[i]
    ensures ProcessRecord(a) == ProcessRecord(b) != None
  {
  }

  /** Every process record is, in line order, tokens 0-5, 7 and 8 of a data
      line with at least nine tokens; every such line yields one. */
  lemma {:induction false} ProcessInfosFromLines(output: string)
    ensures var lines, procs := DataLines(output), ProcessInfos(output);
            var o := Origins(lines, ProcessRecord);
            && |o| == |procs| <= |lines|
            && (forall k, m :: 0 <= k < m < |o| ==> o[k] < o[m])
            && (forall k :: 0 <= k < |o| ==>
                  && k < |procs| && o[k] < |lines| && |Words(lines[o[k]])| >= 9
                  && var w := Words(lines[o[k]]);
                     procs[k] == ProcessInfo(w[0], w[1], w[2], w[3], w[4], w[5], w[7], w[8]))
            && (forall j :: 0 <= j < |lines| && |Words(lines[j])| >= 9 ==> j in o)
  {
    var lines := DataLines(output);
    CollectOrigins(lines, ProcessRecord);
    var o := Origins(lines, ProcessRecord);
    forall k | 0 <= k < |o| ensures ProcessRecord(lines[o[k]]).Some? {
    }
  }

  // ---------------------------------------------------------------------
  // Properties shared by the three parsers

  /** A failed command's empty output, or any whitespace-only text, yields
      no records and no error. */
  lemma {:induction false} BlankOutputNoRecords(output: string)
    requires AllSpace(output)
    ensures ListeningPorts(output) == []
    ensures EstablishedConnections(output) == []
    ensures ProcessInfos(output) == []
  {
    BlankOutputLines(output);
    assert Words("") == [];
    assert [""][..0] == [];
  }

  // ---------------------------------------------------------------------
  // The `lsof` lookup of get_process_for_port

  /** `TCP` exactly when the protocol lower-cases to `tcp`; `UDP` for anything else. */
  function ProtoArg(protocol: string): (r: string)
    ensures r == "TCP" <==> Lower(protocol) == "tcp"
    ensures r != "TCP" ==> r == "UDP"
  {
    if Lower(protocol) == "tcp" then "TCP" else "UDP"
  }

  /** `["sudo", "lsof", "-i", f"{proto_arg}:{port}"]` */
  function LsofArgv(port: string, protocol: string): (argv: seq<string>)
    ensures |argv| == 4 && argv[..3] == ["sudo", "lsof", "-i"]
  {
    ["sudo", "lsof", "-i", ProtoArg(protocol) + ":" + port]
  }

  /** For a port without `:` (every port the listening parser produces),
      the lookup's `-i` argument splits back at its last `:` into the
      protocol selector and the port. */
  lemma {:induction false} LsofTargetSplits(port: string, protocol: string)
    requires ':' !in port
    ensures RSplit(LsofArgv(port, protocol)[3], ':') == Some((ProtoArg(protocol), port))
  {
    RSplitLast(ProtoArg(protocol) + ":" + port, ':', ProtoArg(protocol), port);
  }
}
