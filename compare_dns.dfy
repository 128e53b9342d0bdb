/** The per-row loop of the DNS comparator: every CSV row `fqdn,type` is
    looked up on two nameservers, the two answer lists are lower-cased and
    sorted, compared, and the outcome is written to five append-only logs
    while three counters are kept.

    The nameservers are an oracle: for the row at index `i` the caller
    supplies `replies[i]`, the two outcomes the lookups produce. */
module CompareDns {
  import opened Text
  import opened Sorting

  /** The outcome of one lookup on one nameserver: the textual answer
      records, or the text of the exception it raised. */
  datatype Outcome = Answers(records: seq<string>) | Failure(reason: string)

  /** The outcomes of the lookups of one row on the first and the second nameserver. */
  datatype Replies = Replies(first: Outcome, second: Outcome)

  /** What the loop makes of one CSV row. */
  datatype RowKind =
    | Skipped                              // blank or comment line
    | BadData                              // fewer than two fields
    | Parsed(name: string, recType: string)

  /** Counters and logs of a run; `runLog`, `identicalLog`, `problemsLog`,
      `errLog` and `exceptionLog` are the five output files, one entry per line. */
  datatype RunState = RunState(
    loopCount: nat,
    exceptionCount: nat,
    mismatchCount: nat,
    runLog: seq<string>,
    identicalLog: seq<string>,
    problemsLog: seq<string>,
    errLog: seq<string>,
    exceptionLog: seq<string>)

  /** The state before the first row. */
  const Initial := RunState(0, 0, 0, [], [], [], [], [])

  /** The skip test: no field, a blank first field, or a first field that
      starts with `#` (tested before stripping). */
  predicate IsSkipped(row: seq<string>) {
    row == [] || Strip(row[0]) == [] || StartsWith(row[0], "#")
  }

  /** Skip, reject or parse a row. */
  function Classify(row: seq<string>): (k: RowKind)
    ensures k.Parsed? ==> |row| >= 2
  {
    if IsSkipped(row) then Skipped
    else if |row| < 2 then BadData
    else Parsed(Strip(row[0]), Strip(row[1]))
  }

  /** A row is skipped exactly when it has no field, its first field is all
      whitespace, or its first field starts with `#`; it is rejected exactly
      when it is not skipped and has fewer than two fields. A parsed row has
      a name that is neither empty nor surrounded by whitespace. */
  lemma ClassifyRow(row: seq<string>)
    ensures Classify(row).Skipped? <==> row == [] || AllSpace(row[0]) || (row[0] != [] && row[0][0] == '#')
    ensures Classify(row).BadData? <==> !Classify(row).Skipped? && |row| < 2
    ensures Classify(row).Parsed? ==>
      var name := Classify(row).name;
      name != [] && !IsSpace(name[0]) && !IsSpace(name[|name| - 1])
  {
    if row != [] {
      StripSpec(row[0]);
    }
    if row != [] && row[0] != [] {
      assert StartsWith(row[0], "#") <==> row[0][0] == '#' by {
        assert row[0][..1] == [row[0][0]];
      }
    }
  }

  /** The `#` test looks at the field before it is stripped: an indented
      comment is looked up under its stripped name. */
  lemma IndentedCommentIsLookedUp()
    ensures Classify([" #x", "A"]) == Parsed("#x", "A")
  {
    assert " #x"[1..] == "#x";
    assert TrimLeft(" #x") == "#x";
    assert TrimRight("#x") == "#x";
    assert Strip("A") == "A";
    assert !StartsWith(" #x", "#");
  }

  /** The answer that stands in for a failed lookup. */
  function Marker(err: string): string {
    "bad response \"" + err + "\""
  }

  /** The answer list a lookup yields, a failure replaced by its marker. */
  function Substitute(o: Outcome): seq<string> {
    match o
    case Answers(records) => records
    case Failure(err) => [Marker(err)]
  }

  /** Every answer lower-cased. */
  function LowerAll(xs: seq<string>): (r: seq<string>)
    ensures |r| == |xs|
  {
    if xs == [] then [] else [Lower(xs[0])] + LowerAll(xs[1..])
  }

  /** `sorted([str(a).lower() for a in answers])`. */
  function Normalise(answers: seq<string>): seq<string> {
    Sort(LowerAll(answers))
  }

  /** The message for a row with fewer than two fields at row index `i`. */
  function BadDataMessage(i: nat): string {
    "Ignoring bad data at line " + NatToString(i + 1) + ": \"list index out of range\""
  }

  /** The exception-log line for a failed lookup on nameserver `ip`. */
  function ExceptionLine(ip: string, name: string, recType: string, err: string): string {
    "Exception from " + ListRepr([ip]) + ": " + name + " " + recType + ": \"" + err + "\""
  }

  /** The line that shows one nameserver's normalised answer. */
  function AnswerLine(ip: string, answer: seq<string>): string {
    "    " + PadLeft(ip, 16) + ": " + ListRepr(answer)
  }

  /** The bookkeeping of one lookup: a failure is counted and logged. */
  function Consult(st: RunState, ip: string, name: string, recType: string, o: Outcome): RunState {
    match o
    case Answers(_) => st
    case Failure(err) =>
      st.(exceptionCount := st.exceptionCount + 1,
          exceptionLog := st.exceptionLog + [ExceptionLine(ip, name, recType, err)])
  }

  /** A parsed row is counted as tested, an empty line opens its entry in
      the run log, and both nameservers are consulted, first then second. */
  function AfterLookups(st: RunState, ip1: string, ip2: string, name: string, recType: string, replies: Replies): RunState {
    var s0 := st.(loopCount := st.loopCount + 1, runLog := st.runLog + [""]);
    Consult(Consult(s0, ip1, name, recType, replies.first), ip2, name, recType, replies.second)
  }

  /** Route the comparison of the two normalised answers to the logs, then
      log both answers. */
  function Report(st: RunState, ip1: string, ip2: string, name: string, recType: string,
                  answer1: seq<string>, answer2: seq<string>): RunState
  {
    var s :=
      if answer1 != answer2 then
        st.(mismatchCount := st.mismatchCount + 1,
            runLog := st.runLog + [name + " " + recType + ": mismatch"],
            errLog := st.errLog + [name + " " + recType + ":", AnswerLine(ip1, answer1), AnswerLine(ip2, answer2)],
            problemsLog := st.problemsLog + [name + "," + recType])
      else
        st.(runLog := st.runLog + [name + " " + recType + ": OK identical"],
            identicalLog := st.identicalLog + [name]);
    s.(runLog := s.runLog + [AnswerLine(ip1, answer1), AnswerLine(ip2, answer2)])
  }

  /** The part of an iteration after a row has been parsed. */
  function LookUpAndCompare(st: RunState, ip1: string, ip2: string, name: string, recType: string, replies: Replies): RunState {
    Report(AfterLookups(st, ip1, ip2, name, recType, replies), ip1, ip2, name, recType,
           Normalise(Substitute(replies.first)), Normalise(Substitute(replies.second)))
  }

  /** One iteration of the loop, for the row at index `i`. */
  function Step(st: RunState, ip1: string, ip2: string, i: nat, row: seq<string>, replies: Replies): RunState {
    match Classify(row)
    case Skipped => st
    case BadData =>
      st.(loopCount := st.loopCount + 1,
          runLog := st.runLog + ["", BadDataMessage(i)],
          exceptionLog := st.exceptionLog + [BadDataMessage(i)])
    case Parsed(name, recType) => LookUpAndCompare(st, ip1, ip2, name, recType, replies)
  }

  /** The whole loop over `rows`, row `k` answered by `replies[k]`. */
  function StepAll(st: RunState, ip1: string, ip2: string, rows: seq<seq<string>>, replies: seq<Replies>): RunState
    requires |replies| == |rows|
  {
    if rows == [] then st
    else
      var n := |rows| - 1;
      Step(StepAll(st, ip1, ip2, rows[..n], replies[..n]), ip1, ip2, n, rows[n], replies[n])
  }

  /** How many of the two lookups of a row fail. */
  function FailureCount(replies: Replies): nat {
    (if replies.first.Failure? then 1 else 0) + (if replies.second.Failure? then 1 else 0)
  }

  /** The rows that are not skipped: each is counted by `spin`. */
  function CountTested(rows: seq<seq<string>>): nat {
    if rows == [] then 0
    else CountTested(rows[..|rows| - 1]) + (if Classify(rows[|rows| - 1]).Skipped? then 0 else 1)
  }

  /** The rows that reach the lookups. */
  function CountParsed(rows: seq<seq<string>>): nat {
    if rows == [] then 0
    else CountParsed(rows[..|rows| - 1]) + (if Classify(rows[|rows| - 1]).Parsed? then 1 else 0)
  }

  /** The failed lookups of the rows that reach the lookups. */
  function CountFailures(rows: seq<seq<string>>, replies: seq<Replies>): nat
    requires |replies| == |rows|
  {
    if rows == [] then 0
    else
      var n := |rows| - 1;
      CountFailures(rows[..n], replies[..n]) + (if Classify(rows[n]).Parsed? then FailureCount(replies[n]) else 0)
  }

  // ---------------------------------------------------------------------
  // Normalisation and comparison

  lemma {:induction false} LowerAllAppend(a: seq<string>, b: seq<string>)
    ensures LowerAll(a + b) == LowerAll(a) + LowerAll(b)
  {
    if a != [] {
      LowerAllAppend(a[1..], b);
      calc {
        LowerAll(a + b);
        [Lower((a + b)[0])] + LowerAll((a + b)[1..]);
        { assert (a + b)[1..] == a[1..] + b; }
        [Lower(a[0])] + LowerAll(a[1..] + b);
        [Lower(a[0])] + (LowerAll(a[1..]) + LowerAll(b));
        LowerAll(a) + LowerAll(b);
      }
    } else {
      assert a + b == b;
    }
  }

  lemma {:induction false} LowerAllInsert(x: string, s: seq<string>)
    ensures multiset(LowerAll(Insert(x, s))) == multiset(LowerAll(s)) + multiset{Lower(x)}
  {
    if s == [] {
    } else if StrLe(x, s[0]) {
      assert ([x] + s)[1..] == s;
    } else {
      LowerAllInsert(x, s[1..]);
      assert ([s[0]] + Insert(x, s[1..]))[1..] == Insert(x, s[1..]);
    }
  }

  lemma {:induction false} LowerAllSort(s: seq<string>)
    ensures multiset(LowerAll(Sort(s))) == multiset(LowerAll(s))
  {
    if s != [] {
      LowerAllSort(s[1..]);
      LowerAllInsert(s[0], Sort(s[1..]));
    }
  }

  /** Lower-casing maps permutations to permutations. */
  lemma LowerAllPermutation(a: seq<string>, b: seq<string>)
    requires multiset(a) == multiset(b)
    ensures multiset(LowerAll(a)) == multiset(LowerAll(b))
  {
    SortEqualIff(a, b);
    LowerAllSort(a);
    LowerAllSort(b);
  }

  /** The normalised answer is ascending and a permutation of the lower-cased answers. */
  lemma NormaliseIsSortedPermutation(answers: seq<string>)
    ensures Sorted(Normalise(answers))
    ensures multiset(Normalise(answers)) == multiset(LowerAll(answers))
  {
    SortIsSortedPermutation(LowerAll(answers));
  }

  /** Two answer lists compare equal exactly when their lower-cased answers
      are the same multiset: order does not matter, multiplicity does. */
  lemma NormaliseEqualIff(a: seq<string>, b: seq<string>)
    ensures Normalise(a) == Normalise(b) <==> multiset(LowerAll(a)) == multiset(LowerAll(b))
  {
    SortEqualIff(LowerAll(a), LowerAll(b));
  }

  /** Answer lists that are permutations of each other compare equal. */
  lemma PermutedAnswersAgree(a: seq<string>, b: seq<string>)
    requires multiset(a) == multiset(b)
    ensures Normalise(a) == Normalise(b)
  {
    LowerAllPermutation(a, b);
    NormaliseEqualIff(a, b);
  }

  /** Lower-casing a two-answer list lower-cases each answer. */
  lemma LowerAllPair(x: string, y: string)
    ensures LowerAll([x, y]) == [Lower(x), Lower(y)]
  {
    assert [x, y][1..] == [y];
  }

  lemma LowerLetters()
    ensures Lower("A") == "a" && Lower("B") == "b" && Lower("a") == "a" && Lower("b") == "b"
  {
    assert LowerChar('A') == 'a' && LowerChar('B') == 'b' && LowerChar('a') == 'a' && LowerChar('b') == 'b';
  }

  /** Answers `[A, B]` against `[b, a]` compare identical: order and case are ignored. */
  lemma OrderAndCaseIgnored()
    ensures Normalise(["A", "B"]) == Normalise(["b", "a"])
  {
    LowerLetters();
    LowerAllPair("A", "B");
    LowerAllPair("b", "a");
    assert multiset(["a", "b"]) == multiset(["b", "a"]);
    NormaliseEqualIff(["A", "B"], ["b", "a"]);
  }

  /** Answers `[a, b]` against `[a, a]` are a mismatch: multiplicity counts. */
  lemma MultiplicityCounts()
    ensures Normalise(["a", "b"]) != Normalise(["a", "a"])
  {
    LowerLetters();
    LowerAllPair("a", "b");
    LowerAllPair("a", "a");
    assert multiset(["a", "b"])["b"] == 1 && multiset(["a", "a"])["b"] == 0;
    NormaliseEqualIff(["a", "b"], ["a", "a"]);
  }

  /** A failed lookup compares equal to a successful one only when that one
      returned a single answer spelling the failure marker, case aside. */
  lemma FailureAgainstAnswers(err: string, records: seq<string>)
    ensures Normalise(Substitute(Failure(err))) == Normalise(Substitute(Answers(records)))
        <==> |records| == 1 && Lower(records[0]) == Lower(Marker(err))
  {
    var m := Lower(Marker(err));
    assert LowerAll([Marker(err)]) == [m];
    NormaliseEqualIff([Marker(err)], records);
    var lr := LowerAll(records);
    if multiset([m]) == multiset(lr) {
      assert |lr| == |multiset(lr)| == 1;
      assert lr[0] in multiset(lr);
    }
    if |records| == 1 && Lower(records[0]) == m {
      assert lr == [m];
    }
  }

  /** Two failed lookups compare equal exactly when their error texts agree, case aside. */
  lemma TwoFailuresAgreeIff(e1: string, e2: string)
    ensures Normalise(Substitute(Failure(e1))) == Normalise(Substitute(Failure(e2))) <==> Lower(e1) == Lower(e2)
  {
    FailureAgainstAnswers(e1, [Marker(e2)]);
    var p, q := "bad response \"", "\"";
    LowerConcat(p + e1, q);
    LowerConcat(p, e1);
    LowerConcat(p + e2, q);
    LowerConcat(p, e2);
    var lp, lq := Lower(p), Lower(q);
    assert Lower(Marker(e1)) == lp + Lower(e1) + lq;
    assert Lower(Marker(e2)) == lp + Lower(e2) + lq;
    if Lower(Marker(e1)) == Lower(Marker(e2)) {
      assert Lower(e1) == Lower(Marker(e1))[|lp|..|lp| + |e1|];
      assert Lower(e2) == Lower(Marker(e2))[|lp|..|lp| + |e2|];
    }
  }

  // ---------------------------------------------------------------------
  // One row

  /** A row changes nothing exactly when it is skipped; every other row,
      malformed ones included, is counted as tested. */
  lemma SkippedIffUnchanged(st: RunState, ip1: string, ip2: string, i: nat, row: seq<string>, replies: Replies)
    ensures Step(st, ip1, ip2, i, row, replies) == st <==> Classify(row).Skipped?
    ensures !Classify(row).Skipped? ==> Step(st, ip1, ip2, i, row, replies).loopCount == st.loopCount + 1
  {
    match Classify(row)
    case Skipped =>
    case BadData =>
    case Parsed(name, recType) =>
      ParsedRowVerdict(st, ip1, ip2, name, recType, replies);
  }

  /** A row with fewer than two fields is counted as tested, leaves an empty
      line and the message in the run log and the message in the exception
      log, and touches nothing else. */
  lemma BadDataRow(st: RunState, ip1: string, ip2: string, i: nat, row: seq<string>, replies: Replies)
    requires Classify(row) == BadData
    ensures var r := Step(st, ip1, ip2, i, row, replies);
      && r.loopCount == st.loopCount + 1
      && r.exceptionCount == st.exceptionCount && r.mismatchCount == st.mismatchCount
      && r.runLog == st.runLog + ["", BadDataMessage(i)]
      && r.exceptionLog == st.exceptionLog + [BadDataMessage(i)]
      && r.identicalLog == st.identicalLog && r.problemsLog == st.problemsLog && r.errLog == st.errLog
  {
  }

  /** Both lookups of a parsed row are made: the row is counted, the run log
      gains an empty line, and each failure adds one to the exception counter
      and one line, naming its nameserver, to the exception log. Nothing else
      changes before the comparison. */
  lemma ParsedRowLookups(st: RunState, ip1: string, ip2: string, name: string, recType: string, replies: Replies)
    ensures var r := AfterLookups(st, ip1, ip2, name, recType, replies);
      && r.loopCount == st.loopCount + 1
      && r.exceptionCount == st.exceptionCount + FailureCount(replies)
      && r.exceptionLog == st.exceptionLog
           + (if replies.first.Failure? then [ExceptionLine(ip1, name, recType, replies.first.reason)] else [])
           + (if replies.second.Failure? then [ExceptionLine(ip2, name, recType, replies.second.reason)] else [])
      && r.runLog == st.runLog + [""]
      && r.mismatchCount == st.mismatchCount && r.identicalLog == st.identicalLog
      && r.problemsLog == st.problemsLog && r.errLog == st.errLog
  {
    var s0 := st.(loopCount := st.loopCount + 1, runLog := st.runLog + [""]);
    var s1 := Consult(s0, ip1, name, recType, replies.first);
    var r := Consult(s1, ip2, name, recType, replies.second);
    assert r.runLog == s0.runLog && r.loopCount == s0.loopCount;
    assert r.exceptionCount == st.exceptionCount + FailureCount(replies);
    assert r.exceptionLog == st.exceptionLog
           + (if replies.first.Failure? then [ExceptionLine(ip1, name, recType, replies.first.reason)] else [])
           + (if replies.second.Failure? then [ExceptionLine(ip2, name, recType, replies.second.reason)] else []);
  }

  /** When the normalised answers differ the row is counted as a mismatch and
      goes to the problems file as `name,type` and to the error log as three
      lines; the identical file is untouched. The run log gains the verdict
      and both answers. */
  lemma MismatchReport(st: RunState, ip1: string, ip2: string, name: string, recType: string,
                       answer1: seq<string>, answer2: seq<string>)
    requires answer1 != answer2
    ensures var r := Report(st, ip1, ip2, name, recType, answer1, answer2);
      && r.mismatchCount == st.mismatchCount + 1
      && r.problemsLog == st.problemsLog + [name + "," + recType]
      && r.errLog == st.errLog + [name + " " + recType + ":", AnswerLine(ip1, answer1), AnswerLine(ip2, answer2)]
      && r.identicalLog == st.identicalLog
      && r.runLog == st.runLog + [name + " " + recType + ": mismatch", AnswerLine(ip1, answer1), AnswerLine(ip2, answer2)]
      && r.loopCount == st.loopCount && r.exceptionCount == st.exceptionCount && r.exceptionLog == st.exceptionLog
  {
  }

  /** When the normalised answers agree the name goes to the identical file
      and the mismatch counter, the problems file and the error log are left
      alone. The run log gains the verdict and both answers. */
  lemma IdenticalReport(st: RunState, ip1: string, ip2: string, name: string, recType: string,
                        answer1: seq<string>, answer2: seq<string>)
    requires answer1 == answer2
    ensures var r := Report(st, ip1, ip2, name, recType, answer1, answer2);
      && r.mismatchCount == st.mismatchCount
      && r.identicalLog == st.identicalLog + [name]
      && r.problemsLog == st.problemsLog && r.errLog == st.errLog
      && r.runLog == st.runLog + [name + " " + recType + ": OK identical", AnswerLine(ip1, answer1), AnswerLine(ip2, answer2)]
      && r.loopCount == st.loopCount && r.exceptionCount == st.exceptionCount && r.exceptionLog == st.exceptionLog
  {
  }

  /** Exactly one branch runs for a parsed row: the mismatch counter and the
      identical file together grow by one. */
  lemma ParsedRowVerdict(st: RunState, ip1: string, ip2: string, name: string, recType: string, replies: Replies)
    ensures var r := LookUpAndCompare(st, ip1, ip2, name, recType, replies);
      && r.loopCount == st.loopCount + 1
      && r.exceptionCount == st.exceptionCount + FailureCount(replies)
      && |r.exceptionLog| == |st.exceptionLog| + FailureCount(replies)
      && r.mismatchCount + |r.identicalLog| == st.mismatchCount + |st.identicalLog| + 1
      && |r.problemsLog| + st.mismatchCount == |st.problemsLog| + r.mismatchCount
      && |r.errLog| + 3 * st.mismatchCount == |st.errLog| + 3 * r.mismatchCount
      && |r.runLog| == |st.runLog| + 4
      && AppendOnly(st, r)
  {
    var mid := AfterLookups(st, ip1, ip2, name, recType, replies);
    ParsedRowLookups(st, ip1, ip2, name, recType, replies);
    var answer1, answer2 := Normalise(Substitute(replies.first)), Normalise(Substitute(replies.second));
    if answer1 != answer2 {
      MismatchReport(mid, ip1, ip2, name, recType, answer1, answer2);
    } else {
      IdenticalReport(mid, ip1, ip2, name, recType, answer1, answer2);
    }
  }

  /** A parsed row is a mismatch exactly when the lower-cased answer lists
      (failures replaced by their markers) differ as multisets. */
  lemma MismatchIffDifferentAnswers(st: RunState, ip1: string, ip2: string, i: nat, row: seq<string>, replies: Replies)
    requires Classify(row).Parsed?
    ensures Step(st, ip1, ip2, i, row, replies).mismatchCount == st.mismatchCount + 1
        <==> multiset(LowerAll(Substitute(replies.first))) != multiset(LowerAll(Substitute(replies.second)))
  {
    NormaliseEqualIff(Substitute(replies.first), Substitute(replies.second));
  }

  // ---------------------------------------------------------------------
  // The whole loop

  /** The output files only grow and the counters never decrease. */
  ghost predicate AppendOnly(a: RunState, b: RunState) {
    && a.loopCount <= b.loopCount && a.exceptionCount <= b.exceptionCount && a.mismatchCount <= b.mismatchCount
    && a.runLog <= b.runLog && a.identicalLog <= b.identicalLog && a.problemsLog <= b.problemsLog
    && a.errLog <= b.errLog && a.exceptionLog <= b.exceptionLog
  }

  lemma StepAppendOnly(st: RunState, ip1: string, ip2: string, i: nat, row: seq<string>, replies: Replies)
    ensures AppendOnly(st, Step(st, ip1, ip2, i, row, replies))
  {
    match Classify(row)
    case Skipped =>
    case BadData =>
    case Parsed(name, recType) =>
      ParsedRowVerdict(st, ip1, ip2, name, recType, replies);
  }

  /** Every row only appends to the five output files. */
  lemma {:induction false} StepAllAppendOnly(st: RunState, ip1: string, ip2: string, rows: seq<seq<string>>, replies: seq<Replies>)
    requires |replies| == |rows|
    ensures AppendOnly(st, StepAll(st, ip1, ip2, rows, replies))
  {
    if rows != [] {
      var n := |rows| - 1;
      var mid := StepAll(st, ip1, ip2, rows[..n], replies[..n]);
      StepAllAppendOnly(st, ip1, ip2, rows[..n], replies[..n]);
      StepAppendOnly(mid, ip1, ip2, n, rows[n], replies[n]);
    }
  }

  /** The counters and the lengths of the output files after a sequence of rows. */
  lemma {:induction false} StepAllCounters(st: RunState, ip1: string, ip2: string, rows: seq<seq<string>>, replies: seq<Replies>)
    requires |replies| == |rows|
    ensures var r := StepAll(st, ip1, ip2, rows, replies);
      && r.loopCount == st.loopCount + CountTested(rows)
      && r.mismatchCount + |r.identicalLog| == st.mismatchCount + |st.identicalLog| + CountParsed(rows)
      && r.exceptionCount == st.exceptionCount + CountFailures(rows, replies)
      && |r.problemsLog| + st.mismatchCount == |st.problemsLog| + r.mismatchCount
      && |r.errLog| + 3 * st.mismatchCount == |st.errLog| + 3 * r.mismatchCount
      && |r.exceptionLog| == |st.exceptionLog| + CountFailures(rows, replies) + (CountTested(rows) - CountParsed(rows))
  {
    if rows != [] {
      var n := |rows| - 1;
      var mid := StepAll(st, ip1, ip2, rows[..n], replies[..n]);
      StepAllCounters(st, ip1, ip2, rows[..n], replies[..n]);
      CountsBounded(rows[..n], replies[..n]);
      match Classify(rows[n])
      case Skipped =>
      case BadData =>
        BadDataRow(mid, ip1, ip2, n, rows[n], replies[n]);
      case Parsed(name, recType) =>
        ParsedRowVerdict(mid, ip1, ip2, name, recType, replies[n]);
    }
  }

  /** Parsed rows are among the tested ones, and each has at most two failures. */
  lemma {:induction false} CountsBounded(rows: seq<seq<string>>, replies: seq<Replies>)
    requires |replies| == |rows|
    ensures CountParsed(rows) <= CountTested(rows) <= |rows|
    ensures CountFailures(rows, replies) <= 2 * CountParsed(rows)
  {
    if rows != [] {
      var n := |rows| - 1;
      CountsBounded(rows[..n], replies[..n]);
    }
  }

  /** The summary of a whole run: the mismatches and the identical names
      together are the parsed rows, which are at most the rows counted as
      tested; there are at most two exceptions per parsed row; every
      mismatch has one line in the problems file and three in the error log. */
  lemma RunSummary(ip1: string, ip2: string, rows: seq<seq<string>>, replies: seq<Replies>)
    requires |replies| == |rows|
    ensures var r := StepAll(Initial, ip1, ip2, rows, replies);
      && r.loopCount == CountTested(rows)
      && r.mismatchCount + |r.identicalLog| == CountParsed(rows) <= r.loopCount
      && r.exceptionCount == CountFailures(rows, replies) <= 2 * CountParsed(rows)
      && |r.problemsLog| == r.mismatchCount
      && |r.errLog| == 3 * r.mismatchCount
  {
    StepAllCounters(Initial, ip1, ip2, rows, replies);
    CountsBounded(rows, replies);
  }

  /** The comparator's state: the three counters and the five output files. */
  class Comparator {
    const ip1: string
    const ip2: string
    var loopCount: nat
    var exceptionCount: nat
    var mismatchCount: nat
    var runLog: seq<string>
    var identicalLog: seq<string>
    var problemsLog: seq<string>
    var errLog: seq<string>
    var exceptionLog: seq<string>

    function State(): RunState
      reads this
    {
      RunState(loopCount, exceptionCount, mismatchCount, runLog, identicalLog, problemsLog, errLog, exceptionLog)
    }

    /** Endpoints fixed for the run, counters at zero, files empty. */
    constructor (ip1: string, ip2: string)
      ensures this.ip1 == ip1 && this.ip2 == ip2
      ensures State() == Initial
    {
      this.ip1, this.ip2 := ip1, ip2;
      loopCount, exceptionCount, mismatchCount := 0, 0, 0;
      runLog, identicalLog, problemsLog, errLog, exceptionLog := [], [], [], [], [];
    }

    /** `spin`: count the row as tested (the progress glyph is not modelled). */
    method Spin()
      modifies this`loopCount
      ensures loopCount == old(loopCount) + 1
    {
      loopCount := loopCount + 1;
    }

    /** One `try: resolve … except` block: a failure is counted, logged and
        replaced by its marker. */
    method Lookup(ip: string, recName: string, recType: string, o: Outcome) returns (answers: seq<string>)
      modifies this`exceptionCount, this`exceptionLog
      ensures answers == Substitute(o)
      ensures State() == Consult(old(State()), ip, recName, recType, o)
    {
      match o {
        case Answers(records) =>
          answers := records;
        case Failure(ex) =>
          exceptionCount := exceptionCount + 1;
          exceptionLog := exceptionLog + [ExceptionLine(ip, recName, recType, ex)];
          answers := [Marker(ex)];
      }
    }

    /** The `if answer1 != answer2` statement and the two raw-response lines after it. */
    method CompareAndLog(recName: string, recType: string, answer1: seq<string>, answer2: seq<string>)
      modifies this`mismatchCount, this`runLog, this`errLog, this`problemsLog, this`identicalLog
      ensures State() == Report(old(State()), ip1, ip2, recName, recType, answer1, answer2)
    {
      if answer1 != answer2 {
        mismatchCount := mismatchCount + 1;
        runLog := runLog + [recName + " " + recType + ": mismatch"];
        errLog := errLog + [recName + " " + recType + ":", AnswerLine(ip1, answer1), AnswerLine(ip2, answer2)];
        problemsLog := problemsLog + [recName + "," + recType];
      } else {
        runLog := runLog + [recName + " " + recType + ": OK identical"];
        identicalLog := identicalLog + [recName];
      }
      runLog := runLog + [AnswerLine(ip1, answer1), AnswerLine(ip2, answer2)];
    }

    /** The body of the loop for the row at index `i`. */
    method ProcessRow(i: nat, row: seq<string>, replies: Replies)
      modifies this
      ensures State() == Step(old(State()), ip1, ip2, i, row, replies)
    {
      if IsSkipped(row) {
        assert Classify(row) == Skipped;
        return;
      }
      Spin();
      runLog := runLog + [""];
      ProcessTestedRow(i, row, replies, old(State()));
    }

    /** The rest of the loop body for a row that is not skipped, once it has
        been counted and its empty line logged: `before` is the state at the
        start of the iteration. */
    method ProcessTestedRow(i: nat, row: seq<string>, replies: Replies, ghost before: RunState)
      requires !IsSkipped(row)
      requires State() == before.(loopCount := before.loopCount + 1, runLog := before.runLog + [""])
      modifies this`exceptionCount, this`exceptionLog, this`mismatchCount, this`runLog, this`errLog, this`problemsLog, this`identicalLog
      ensures State() == Step(before, ip1, ip2, i, row, replies)
    {
      if |row| < 2 {
        assert Classify(row) == BadData;
        var msg := BadDataMessage(i);
        runLog := runLog + [msg];
        exceptionLog := exceptionLog + [msg];
        return;
      }
      var recName := Strip(row[0]);
      var recType := Strip(row[1]);
      assert Classify(row) == Parsed(recName, recType);
      assert AfterLookups(before, ip1, ip2, recName, recType, replies)
          == Consult(Consult(State(), ip1, recName, recType, replies.first), ip2, recName, recType, replies.second);
      LookUpRow(recName, recType, replies);
    }

    /** The two lookups of a parsed row, the normalisation of their answers
        and the comparison. */
    method LookUpRow(recName: string, recType: string, replies: Replies)
      modifies this`exceptionCount, this`exceptionLog, this`mismatchCount, this`runLog, this`errLog, this`problemsLog, this`identicalLog
      ensures State() == Report(
        Consult(Consult(old(State()), ip1, recName, recType, replies.first), ip2, recName, recType, replies.second),
        ip1, ip2, recName, recType, Normalise(Substitute(replies.first)), Normalise(Substitute(replies.second)))
    {
      var a1 := Lookup(ip1, recName, recType, replies.first);
      var answer1 := Normalise(a1);
      var a2 := Lookup(ip2, recName, recType, replies.second);
      var answer2 := Normalise(a2);
      CompareAndLog(recName, recType, answer1, answer2);
    }

    /** `for i, line in enumerate(reader)`: every row in turn. */
    method ProcessRows(rows: seq<seq<string>>, replies: seq<Replies>)
      requires |replies| == |rows|
      modifies this
      ensures State() == StepAll(old(State()), ip1, ip2, rows, replies)
    {
      for i := 0 to |rows|
        invariant State() == StepAll(old(State()), ip1, ip2, rows[..i], replies[..i])
      {
        assert rows[..i + 1][..i] == rows[..i] && replies[..i + 1][..i] == replies[..i];
        ProcessRow(i, rows[i], replies[i]);
      }
      assert rows[..|rows|] == rows && replies[..|replies|] == replies;
    }
  }
}
