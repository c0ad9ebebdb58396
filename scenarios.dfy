/** Worked examples: proved facts about the parsers on fixed inputs of the
    kind the tool is written for. Each sample line is given as its words joined by single spaces, and
    the texts are passed through parameters so that the verifier unfolds the
    parsers step by step. */
module Scenarios {
  import opened Wrappers
  import opened PyStr
  import opened PortScanner
  import opened Sorting
  import opened Report

  predicate PlainWords(ws: seq<string>) {
    forall w :: w in ws ==> w != [] && NoSpace(w)
  }

  /** Visible ASCII characters, none of which is whitespace. */
  predicate Visible(s: string) {
    forall i :: 0 <= i < |s| ==> '!' <= s[i] <= '~'
  }

  lemma {:induction false} VisibleWords(ws: seq<string>)
    requires forall w :: w in ws ==> w != [] && Visible(w)
    ensures PlainWords(ws)
  {
  }

  /** A line of whitespace-free words has no newline and no whitespace margin. */
  lemma {:induction false} UnwordsPlain(ws: seq<string>)
    requires ws != [] && PlainWords(ws)
    ensures var line := Unwords(ws);
            && line != [] && '\n' !in line && !IsSpace(line[0]) && !IsSpace(line[|line| - 1])
  {
    assert ws[0] in ws;
    if |ws| > 1 {
      assert forall w :: w in ws[1..] ==> w in ws;
      UnwordsPlain(ws[1..]);
      var line := Unwords(ws);
      assert line == ws[0] + ([' '] + Unwords(ws[1..]));
      assert line[0] == ws[0][0];
    }
  }

  /** A header and two data lines: the parsers see exactly the two data lines. */
  lemma {:induction false} TwoDataLines(h: string, l1: string, l2: string)
    requires '\n' !in h && '\n' !in l1 && '\n' !in l2
    requires h != [] && l2 != [] && !IsSpace(h[0]) && !IsSpace(l2[|l2| - 1])
    ensures DataLines(h + "\n" + l1 + "\n" + l2) == [l1, l2]
  {
    var output := h + "\n" + l1 + "\n" + l2;
    StripUnchanged(output);
    assert [h, l1, l2][1..] == [l1, l2];
    assert [l1, l2][1..] == [l2];
    assert Join([l2], '\n') == l2;
    assert Join([l1, l2], '\n') == l1 + "\n" + l2;
    assert output == h + "\n" + (l1 + "\n" + l2);
    assert output == Join([h, l1, l2], '\n');
    SplitJoin([h, l1, l2], '\n');
  }

  lemma {:induction false} CollectTwo<T>(l1: string, l2: string, f: string -> Option<T>, x1: T, x2: T)
    requires f(l1) == Some(x1) && f(l2) == Some(x2)
    ensures Collect([l1, l2], f) == [x1, x2]
  {
    assert [l1, l2][..1] == [l1];
  }

  /** A line of words whose fifth word is `ip:port` gives that listening record. */
  lemma {:induction false} ListeningLine(ws: seq<string>, ip: string, port: string)
    requires |ws| >= 5 && PlainWords(ws)
    requires ws[4] == ip + ":" + port && ':' !in port
    ensures ListeningRecord(Unwords(ws)) == Some(ListeningPort(Lower(ws[0]), ip, port))
  {
    WordsUnwords(ws);
    RSplitLast(ws[4], ':', ip, port);
  }

  lemma {:induction false} LowerTcpUdp()
    ensures Lower("tcp") == "tcp" && Lower("udp") == "udp"
  {
  }

  lemma {:induction false} HeaderWordsPlain(h: seq<string>)
    requires h == ["Netid", "State", "Recv-Q", "Send-Q", "Local", "Address:Port"]
    ensures PlainWords(h)
  {
    var a, b := ["Netid", "State", "Recv-Q"], ["Send-Q", "Local", "Address:Port"];
    VisibleWords(a);
    VisibleWords(b);
    PlainWordsConcat(a, b);
    assert h == a + b;
  }

  lemma {:induction false} SshWordsPlain(ws: seq<string>)
    requires ws == ["tcp", "LISTEN", "0", "128", "0.0.0.0:22"]
    ensures PlainWords(ws) && ws[4] == "0.0.0.0" + ":" + "22" && ':' !in "22"
  {
    VisibleWords(ws);
  }

  lemma {:induction false} DnsWordsPlain(ws: seq<string>)
    requires ws == ["udp", "UNCONN", "0", "0", "127.0.0.1:53"]
    ensures PlainWords(ws) && ws[4] == "127.0.0.1" + ":" + "53" && ':' !in "53"
  {
    VisibleWords(ws);
  }

  /** `ss -tuln` output with a header and two sockets gives two records, in
      line order; the header is dropped. */
  lemma {:induction false} ListeningSample(output: string, h: seq<string>, ws1: seq<string>, ws2: seq<string>)
    requires h == ["Netid", "State", "Recv-Q", "Send-Q", "Local", "Address:Port"]
    requires ws1 == ["tcp", "LISTEN", "0", "128", "0.0.0.0:22"]
    requires ws2 == ["udp", "UNCONN", "0", "0", "127.0.0.1:53"]
    requires output == Unwords(h) + "\n" + Unwords(ws1) + "\n" + Unwords(ws2)
    ensures ListeningPorts(output)
            == [ListeningPort("tcp", "0.0.0.0", "22"), ListeningPort("udp", "127.0.0.1", "53")]
  {
    HeaderWordsPlain(h);
    SshWordsPlain(ws1);
    DnsWordsPlain(ws2);
    UnwordsPlain(h);
    UnwordsPlain(ws1);
    UnwordsPlain(ws2);
    TwoDataLines(Unwords(h), Unwords(ws1), Unwords(ws2));
    LowerTcpUdp();
    ListeningLine(ws1, "0.0.0.0", "22");
    ListeningLine(ws2, "127.0.0.1", "53");
    CollectTwo(Unwords(ws1), Unwords(ws2), ListeningRecord,
               ListeningPort("tcp", "0.0.0.0", "22"), ListeningPort("udp", "127.0.0.1", "53"));
  }

  lemma {:induction false} PlainWordsConcat(a: seq<string>, b: seq<string>)
    requires PlainWords(a) && PlainWords(b)
    ensures PlainWords(a + b)
  {
  }

  lemma {:induction false} LsofHeaderWordsPlain(ws: seq<string>)
    requires ws == ["COMMAND", "PID", "USER", "FD", "TYPE", "DEVICE", "SIZE/OFF", "NODE", "NAME"]
    ensures PlainWords(ws)
  {
    var a, b := ["COMMAND", "PID", "USER", "FD"], ["TYPE", "DEVICE", "SIZE/OFF", "NODE", "NAME"];
    VisibleWords(a);
    VisibleWords(b);
    PlainWordsConcat(a, b);
    assert ws == a + b;
  }

  /** `lsof` output that is only its header line is not treated as a header:
      it has nine tokens, so it becomes a process record. */
  lemma {:induction false} LoneLsofHeaderIsRecord(output: string, ws: seq<string>)
    requires ws == ["COMMAND", "PID", "USER", "FD", "TYPE", "DEVICE", "SIZE/OFF", "NODE", "NAME"]
    requires output == Unwords(ws)
    ensures ProcessInfos(output) == [ProcessInfo("COMMAND", "PID", "USER", "FD", "TYPE", "DEVICE", "NODE", "NAME")]
  {
    LsofHeaderWordsPlain(ws);
    UnwordsPlain(ws);
    StripUnchanged(output);
    SplitNoSep(output, '\n');
    assert DataLines(output) == [output];
    WordsUnwords(ws);
    assert ProcessRecord(output) == Some(ProcessInfo("COMMAND", "PID", "USER", "FD", "TYPE", "DEVICE", "NODE", "NAME"));
    assert [output][..0] == [];
  }

  lemma {:induction false} SortOne<T>(c: T, key: T -> int)
    ensures SortBy([c], key) == [c]
  {
    assert [c][1..] == [];
  }

  lemma {:induction false} SortTwo<T>(b: T, c: T, key: T -> int)
    requires key(b) < key(c)
    ensures SortBy([b, c], key) == [b, c]
  {
    assert [b, c][1..] == [c];
    SortOne(c, key);
  }

  lemma {:induction false} InsertMiddle<T>(a: T, b: T, c: T, key: T -> int)
    requires key(b) < key(a) < key(c)
    ensures Insert(a, [b, c], key) == [b, a, c]
  {
    assert [b, c][1..] == [c];
    assert Insert(a, [c], key) == [a, c];
  }

  lemma {:induction false} SortThree<T>(a: T, b: T, c: T, key: T -> int)
    requires key(b) < key(a) < key(c)
    ensures SortBy([a, b, c], key) == [b, a, c]
  {
    assert [a, b, c][1..] == [b, c];
    SortTwo(b, c, key);
    InsertMiddle(a, b, c, key);
  }

  /** Three listening ports whose numbers are out of order come back ordered
      by number: a port numbered 22 is listed before 80, and 80 before 8080. */
  lemma {:induction false} SortSample(a: ListeningPort, b: ListeningPort, c: ListeningPort)
    requires ParseInt(a.port) == Some(80)
    requires ParseInt(b.port) == Some(22)
    requires ParseInt(c.port) == Some(8080)
    ensures SortListening([a, b, c]) == [b, a, c]
  {
    SortThree(a, b, c, PortValue);
  }
}
