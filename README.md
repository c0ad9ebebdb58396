# port_scanner.py — a verified model of its parsing and report rules

`port_scanner.py` lists the ports a Linux machine listens on and the
connections it holds. It does this by running `ss -tuln`,
`ss -tun state established` and, with `-p`, `sudo lsof -i PROTO:PORT`. This
project models the part of the tool that works on the text those commands
print:

- the three parsers, which turn command output into records;
- the `lsof` argument vector built for each listening port;
- the rule that shows both report sections when neither `-l` nor `-c` is given;
- the stable numeric sorts that order the report.

Modules:

- `Wrappers` (`wrappers.dfy`): the `Option` type.
- `PyStr` (`pystr.dfy`): the Python `str` operations the parsers use, written out.
  - `strip()` and `split()` cut on CPython's `str.isspace()` set.
  - `split('\n')` and `'\n'.join`.
  - `rsplit(':', 1)`.
  - `lower()` on ASCII letters.
  - `int()` on base-10 text, and `str()` on integers.
- `PortScanner` (`scanner.dfy`): the records and the three parsers.
  - Each parser is a method with the source's `for` loop and appends.
  - Each method is proved equal to a functional specification: `Collect` of a per-line rule over the data lines.
  - Lemmas state what each specification guarantees.
  - Also here: the `lsof` argument vector of `get_process_for_port`.
- `Sorting` (`sorting.dfy`): Python's `sorted(xs, key=k)` for an integer key.
  - It is modelled as a stable insertion sort.
  - Proved: sorted, a permutation, and stable. Stable means the elements with any one key keep their order.
- `Report` (`report.dfy`): the rules `main` applies.
  - Section defaults.
  - The two numeric sorts.
  - The `lsof` lookups issued, one per listening port, in report order.
- `Scenarios` (`scenarios.dfy`): worked samples.
  - `ss -tuln` output with a header and two sockets.
  - A lone `lsof` header line.
  - Three ports out of order.

### A lone line is data

The comment at `port_scanner.py:51` calls the first line a header. The test at
`port_scanner.py:52` drops it only when there are at least two lines, so a
one-line output is parsed as data. `HeaderLine` states the rule.
`LoneLsofHeaderIsRecord` shows the consequence: `lsof` output that is only its
header line becomes a process record.

## Model

| member | source | states |
|---|---|---|
| PyStr.LeadingSpace | port_scanner.py:49 | the count of leading whitespace characters: all of them are whitespace and the next character is not |
| PyStr.TrailingSpace | port_scanner.py:49 | the count of trailing whitespace characters: all of them are whitespace and the character before them is not |
| PyStr.TrimStart | port_scanner.py:49 | `lstrip()` leaves a text that is empty or does not start with whitespace |
| PyStr.TrimEnd | port_scanner.py:49 | `rstrip()` leaves a text that is empty or does not end with whitespace |
| PyStr.Strip | port_scanner.py:49 | `strip()` is empty exactly for an all-whitespace text; otherwise neither end is whitespace |
| PyStr.StripSlice | port_scanner.py:49 | `strip()` returns a contiguous slice of its input, with only whitespace cut off on either side |
| PyStr.StripUnchanged | port_scanner.py:49 | a text with no whitespace at either end is its own `strip()` |
| PyStr.Split | port_scanner.py:49 | `split('\n')` always returns at least one piece |
| PyStr.SplitPieces | port_scanner.py:49 | no piece of `split(sep)` contains `sep` |
| PyStr.SplitNoSep | port_scanner.py:49 | a text without the separator splits into itself alone |
| PyStr.JoinSplit | port_scanner.py:49 | joining the pieces of `split(sep)` with `sep` gives the text back |
| PyStr.SplitPrefix | port_scanner.py:49 | a separator-free prefix stays glued to the first piece of what follows it |
| PyStr.SplitJoin | port_scanner.py:49 | splitting a join of separator-free pieces gives the pieces back |
| PyStr.Token | port_scanner.py:56 | the longest whitespace-free prefix: a prefix of the text, with no whitespace, followed by whitespace or the end |
| PyStr.Words | port_scanner.py:56 | every token of `split()` is non-empty and free of whitespace |
| PyStr.TokenOf | port_scanner.py:56 | a whitespace-free word followed by whitespace or nothing is the first token |
| PyStr.WordsSkipSpace | port_scanner.py:56 | leading whitespace does not change the tokens of `split()` |
| PyStr.WordsCons | port_scanner.py:56 | a word followed by whitespace or nothing is the first token, followed by the tokens of the rest |
| PyStr.WordsSpaced | port_scanner.py:56 | a word, a space and a rest split into the word followed by the tokens of the rest |
| PyStr.WordsUnwords | port_scanner.py:56 | `split()` of whitespace-free words joined by single spaces gives the words back |
| PyStr.RSplit | port_scanner.py:63 | `rsplit(':', 1)` succeeds exactly when `:` occurs; the parts rebuild the text around one `:`, and the right part has no `:` |
| PyStr.RSplitLast | port_scanner.py:63 | the split is at the last `:`: any decomposition whose right part has no `:` is the one returned |
| PyStr.Lower | port_scanner.py:58 | `lower()` keeps the length, lower-cases each character, and leaves no ASCII capital letter |
| PyStr.DigitStringSnoc | port_scanner.py:162 | a digit string followed by one more digit is still a digit string, as `int()` reads it; used for the reference inverse of `int()` |
| PyStr.DigitStringChars | port_scanner.py:162 | the digit part of an `int()` literal holds only digits and underscores |
| PyStr.ParseInt | port_scanner.py:162 | `int()` succeeds exactly when the text has no U+001C..U+001F character and, once stripped, is a digit string with an optional sign; an unsigned digit string gives its decimal value; a negative result needs a leading `-` |
| PyStr.ShowNat | port_scanner.py:162 | `str(n)` for `n >= 0` is a non-empty string of digits; this is the reference inverse of `int()`, not code of the tool |
| PyStr.DigitsValueShowNat | port_scanner.py:162 | the digits of `str(n)`, the reference inverse of `int()`, form a valid digit string whose value is `n` |
| PyStr.ParseDigits | port_scanner.py:162 | `int()` of a digit string is its decimal value |
| PyStr.ParseNegativeDigits | port_scanner.py:162 | `int()` of `-` followed by a digit string is the negated value |
| PyStr.ParseShowInt | port_scanner.py:162 | `int(str(n)) == n` for every integer `n` |
| PortScanner.DataLines | port_scanner.py:49-53 | the lines the parsers walk: there is always at least one, and none contains a newline |
| PortScanner.HeaderLine | port_scanner.py:49-53 | the first line is dropped exactly when the stripped text has a newline; that line has no newline, and the data lines are the rest of the text; otherwise the one line is kept |
| PortScanner.BlankOutputLines | port_scanner.py:49-53 | empty or whitespace-only output leaves a single empty data line |
| PortScanner.Collect | port_scanner.py:55-68 | a parser never returns more records than there are data lines |
| PortScanner.CollectStep | port_scanner.py:55-68 | one more line appends that line's record if the per-line rule accepts it, and nothing otherwise |
| PortScanner.CollectOrigins | port_scanner.py:55-68 | the k-th record comes from the k-th accepted line, accepted lines are taken in increasing position, and no accepted line is missed |
| PortScanner.ListeningRecord | port_scanner.py:55-68 | a line gives a record exactly when it has at least five tokens and the fifth holds `:`; then address + `:` + port is the fifth token, the port has no `:`, and the protocol is the lower-cased first token |
| PortScanner.ParseListeningPorts | port_scanner.py:46-70 | the loop with its appends returns exactly the records of the data lines, in line order |
| PortScanner.ListeningPortsFromLines | port_scanner.py:55-68 | every listening record comes, in line order, from a data line with at least five tokens whose fifth token it rebuilds; every such line with a `:` gives one |
| PortScanner.ListeningPortsNoColon | port_scanner.py:62-63 | no port of a listening record contains `:` |
| PortScanner.ConnectionRecord | port_scanner.py:81-99 | a line gives a record exactly when it has at least five tokens and the fourth and fifth both hold `:`; each endpoint is rebuilt from address + `:` + port, ports have no `:`, and the protocol is the lower-cased first token |
| PortScanner.ParseEstablishedConnections | port_scanner.py:72-101 | the loop with its appends returns exactly the connection records of the data lines, in line order |
| PortScanner.EstablishedConnectionsFromLines | port_scanner.py:81-99 | every connection comes, in line order, from a data line whose fourth and fifth tokens it rebuilds; every qualifying line gives one |
| PortScanner.ProcessRecord | port_scanner.py:112-125 | a line gives a record exactly when it has at least nine tokens; the fields are tokens 0-5, 7 and 8 |
| PortScanner.ParseProcessInfo | port_scanner.py:103-127 | the loop with its appends returns exactly the process records of the data lines, in line order |
| PortScanner.ProcessRecordIgnoresSize | port_scanner.py:115-124 | two lines whose tokens differ only in the seventh (SIZE/OFF) give the same record |
| PortScanner.ProcessInfosFromLines | port_scanner.py:112-125 | every process record is, in line order, tokens 0-5, 7 and 8 of a data line with at least nine tokens; every such line gives one |
| PortScanner.BlankOutputNoRecords | port_scanner.py:49-53 | empty or whitespace-only output, the fallback of a failed command, gives no records and no error from any parser |
| PortScanner.ProtoArg | port_scanner.py:34-37 | the selector is `TCP` exactly when the protocol lower-cases to `tcp`, and `UDP` otherwise |
| PortScanner.LsofArgv | port_scanner.py:39 | the argument vector has four entries and starts with `sudo lsof -i` |
| PortScanner.LsofTargetSplits | port_scanner.py:39 | for a port without `:`, the `-i` argument splits at its last `:` into the selector and the port |
| Sorting.Insert | port_scanner.py:162 | inserting into a sorted list keeps it sorted and adds exactly that element |
| Sorting.SortBy | port_scanner.py:162 | `sorted` returns a permutation of its input, ascending by key |
| Sorting.InsertWithKey | port_scanner.py:162 | insertion puts the new element ahead of every element with the same key |
| Sorting.SortByStable | port_scanner.py:162 | for every key, the elements with that key keep their relative order |
| Report.WithDefaultSections | port_scanner.py:143-145 | with neither `-l` nor `-c`, both sections are shown; otherwise the options are unchanged; `-p` and `-o` are never altered |
| Report.PortKeyOfText | port_scanner.py:162 | the sort key `int(x['port'])` of a port written as `str(n)` is `n` |
| Report.LocalPortKeyOfText | port_scanner.py:184 | the sort key `int(x['local_port'])` of a local port written as `str(n)` is `n` |
| Report.SortListening | port_scanner.py:162 | when every port is a number `int()` accepts, the listening records come back as a permutation, ascending by port number, with equal numbers in their original order |
| Report.SortConnections | port_scanner.py:184 | the same for connections, keyed by the local port number |
| Report.LookupArgvs | port_scanner.py:162-167 | one lookup per listening port |
| Report.LookupArgvsAt | port_scanner.py:162-167 | the k-th lookup is the `lsof` vector of the k-th port |
| Report.ProcessLookups | port_scanner.py:162-167 | with `-p`, the loop over the sorted ports issues one lookup per port, in report order |
| Report.LookupTargetsRecoverPorts | port_scanner.py:162-167 | each lookup for a parsed port names that port's protocol selector and the port itself, recoverable by a last-`:` split |
| Scenarios.TwoDataLines | port_scanner.py:49-53 | a header followed by two lines leaves exactly those two data lines |
| Scenarios.ListeningLine | port_scanner.py:55-68 | a line whose fifth word is `ip:port` gives the record with that address and port |
| Scenarios.ListeningSample | port_scanner.py:46-70 | `ss -tuln` output with a header, a TCP socket on `0.0.0.0:22` and a UDP socket on `127.0.0.1:53` gives those two records, in that order |
| Scenarios.LoneLsofHeaderIsRecord | port_scanner.py:112-125 | `lsof` output that is only its header line yields one process record made of the header's words |
| Scenarios.SortThree | port_scanner.py:162 | three elements with keys middle, low, high are sorted into low, middle, high |
| Scenarios.SortSample | port_scanner.py:162 | listening ports numbered 80, 22 and 8080 are listed as 22, 80, 8080 |

## Left out

- Running `ss` and `lsof` through `subprocess.run`, and the error messages printed when they fail (`port_scanner.py:9-44`). This is process I/O. The empty-string fallback is modelled as an input: `BlankOutputNoRecords`.
- Argument parsing with `argparse` (`port_scanner.py:130-140`) is not modelled; `Options` is its parsed result. The timestamp from `datetime.now`, `print` and the file writing (`port_scanner.py:148-201`) are left out as I/O.
- The f-string column padding and the `└─` process lines of the report (`port_scanner.py:149-191`) are left out as presentation.
- The crash on a port that `int()` rejects during sorting (`port_scanner.py:162`, `184`) is a precondition of `SortListening`, `SortConnections` and `ProcessLookups`, not modelled exception behaviour.
- PyStr.Lower: lower-cases ASCII letters only, where Python's `lower()` covers all of Unicode. The one comparison that depends on it (`== "tcp"`) has the same outcome for every input either way. Protocol fields whose first token has non-ASCII capitals would differ.
- PyStr.ParseInt: accepts only ASCII digits, where Python's `int()` also accepts other Unicode decimal digits. It also has no limit on the number of digits, where current CPython rejects texts of more than 4300 digits by default; that limit is a setting of the interpreter. Neither case can arise for a port token.
- PortScanner.LsofArgv: its contract gives the fixed prefix and the length. The shape of the fourth argument is stated by `LsofTargetSplits` for ports without `:`, which is every port the listening parser produces.
- Scenarios.SortSample: the ports are given by their `int()` values rather than as literal texts. The round trip from text to number is `ParseShowInt`.
- The sample texts in `Scenarios` separate words with single spaces. The real tools pad columns with runs of spaces, which `split()` treats the same way (`WordsSkipSpace`).
