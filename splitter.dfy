/**
 * The quote-aware pipe splitter (`parsePipedCommands`): a scanner over the
 * characters of a command line whose state is the quote character that is
 * currently open, if any.
 */
module Splitter {
  import opened Wrappers
  import opened GoStrings

  /** The three characters that open and close a quoted span. */
  predicate IsQuote(c: char) {
    c == '\'' || c == '"' || c == '`'
  }

  /** The scanner's `openQuote`; Go keeps `NoQuote` as the rune 0. */
  datatype Quote = NoQuote | Open(q: char)

  datatype SplitError =
    | MismatchedQuotes(openQuote: char, found: char)
    | UnclosedQuote(quote: char)

  /** The text of the Go error value. */
  function ErrorText(e: SplitError): (msg: string)
    ensures |msg| > 0
  {
    match e
    case MismatchedQuotes(o, f) =>
      "malformatted command string: mismatched quotes " + [o] + " & " + [f]
    case UnclosedQuote(q) => "malformatted command string: unclose quote " + [q]
  }

  /** The scanner's state: the segments emitted so far, the text of the
   *  segment being built (the `strings.Builder`) and the open quote. */
  datatype Scan = Scan(commands: seq<string>, current: string, open: Quote)

  const Start := Scan([], "", NoQuote)

  /** One iteration of the scanning loop. */
  function Step(st: Scan, c: char): Result<Scan, SplitError> {
    if IsQuote(c) then
      match st.open
      case NoQuote => Ok(st.(current := st.current + [c], open := Open(c)))
      case Open(q) =>
        if q == c then Ok(st.(current := st.current + [c], open := NoQuote))
        else Err(MismatchedQuotes(q, c))
    else if c == '|' && st.open == NoQuote then
      Ok(Scan(st.commands + [TrimSpace(st.current)], "", NoQuote))
    else
      Ok(st.(current := st.current + [c]))
  }

  /** The scanning loop run over `s` from state `st`, stopping at the first
   *  error. */
  function ScanFrom(st: Scan, s: string): Result<Scan, SplitError>
    decreases |s|
  {
    if s == [] then Ok(st)
    else
      match Step(st, s[0])
      case Err(e) => Err(e)
      case Ok(next) => ScanFrom(next, s[1..])
  }

  /** What `parsePipedCommands` returns: the loop, then the non-empty
   *  leftover as a last segment, then the check for an unclosed quote. */
  function Split(s: string): Result<seq<string>, SplitError> {
    match ScanFrom(Start, s)
    case Err(e) => Err(e)
    case Ok(st) =>
      var commands := if |st.current| > 0 then st.commands + [TrimSpace(st.current)]
                      else st.commands;
      if st.open.Open? then Err(UnclosedQuote(st.open.q)) else Ok(commands)
  }

  /** The scanner as the source writes it: a loop over the characters
   *  appending to the current segment in place. */
  method ParsePipedCommands(cmdStr: string) returns (r: Result<seq<string>, SplitError>)
    ensures r == Split(cmdStr)
  {
    var commands: seq<string> := [];
    var current: string := "";
    var openQuote := NoQuote;
    var i := 0;
    while i < |cmdStr|
      invariant 0 <= i <= |cmdStr|
      invariant ScanFrom(Start, cmdStr) == ScanFrom(Scan(commands, current, openQuote), cmdStr[i..])
    {
      var c := cmdStr[i];
      assert cmdStr[i..][0] == c && cmdStr[i..][1..] == cmdStr[i + 1..];
      if IsQuote(c) {
        match openQuote {
          case NoQuote => openQuote := Open(c);
          case Open(q) =>
            if q == c {
              openQuote := NoQuote;
            } else {
              return Err(MismatchedQuotes(q, c));
            }
        }
        current := current + [c];
      } else if c == '|' {
        if openQuote == NoQuote {
          commands := commands + [TrimSpace(current)];
          current := "";
        } else {
          current := current + [c];
        }
      } else {
        current := current + [c];
      }
      i := i + 1;
    }
    assert cmdStr[i..] == [];
    if |current| > 0 {
      commands := commands + [TrimSpace(current)];
    }
    if openQuote.Open? {
      return Err(UnclosedQuote(openQuote.q));
    }
    return Ok(commands);
  }

  // ---------------------------------------------------------------------------
  // Reference definitions the scanner is proved against.

  /** The quote characters of `s`, in order. */
  function QuoteChars(s: string): (qs: seq<char>)
    ensures forall k :: 0 <= k < |qs| ==> IsQuote(qs[k])
  {
    if s == [] then []
    else if IsQuote(s[0]) then [s[0]] + QuoteChars(s[1..])
    else QuoteChars(s[1..])
  }

  /** Quotes must come in adjacent equal pairs: the first unequal pair is a
   *  mismatch, and a single quote left over at the end is unclosed. */
  function QuotePairing(qs: seq<char>): Option<SplitError> {
    if |qs| == 0 then None
    else if |qs| == 1 then Some(UnclosedQuote(qs[0]))
    else if qs[0] != qs[1] then Some(MismatchedQuotes(qs[0], qs[1]))
    else QuotePairing(qs[2..])
  }

  /** The raw text of the segments of `s`, quotes and quoted pipes kept:
   *  every `|` outside a quoted span ends a piece. `inQuote` says whether a
   *  span is open at the start of `s`. */
  function Pieces(s: string, inQuote: bool): (ps: seq<string>)
    ensures |ps| >= 1
  {
    if s == [] then [[]]
    else if IsQuote(s[0]) then Prepend(s[0], Pieces(s[1..], !inQuote))
    else if s[0] == '|' && !inQuote then [[]] + Pieces(s[1..], false)
    else Prepend(s[0], Pieces(s[1..], inQuote))
  }

  /** Trims every piece. */
  function TrimEach(ps: seq<string>): (ts: seq<string>)
    ensures |ts| == |ps|
    ensures forall k :: 0 <= k < |ps| ==> ts[k] == TrimSpace(ps[k])
  {
    if ps == [] then [] else [TrimSpace(ps[0])] + TrimEach(ps[1..])
  }

  /** The segments of a well-quoted `s`: its pieces trimmed, the last one
   *  kept only when its raw text is not empty. */
  function Segments(s: string): seq<string> {
    var ps := Pieces(s, false);
    if Last(ps) == [] then TrimEach(AllButLast(ps)) else TrimEach(ps)
  }

  /** The quote state of the scanner as a list of pending quote characters. */
  function Pending(o: Quote): seq<char> {
    if o.Open? then [o.q] else []
  }

  // ---------------------------------------------------------------------------
  // The scanner against the references.

  /** The scanner makes the same decisions about quotes as the pairing rule:
   *  it fails with the pairing's mismatch, and otherwise ends with the
   *  pairing's unclosed quote open, or with no quote open. */
  lemma {:induction false} ScanQuotes(st: Scan, s: string)
    ensures var p := QuotePairing(Pending(st.open) + QuoteChars(s));
      match p
      case None => ScanFrom(st, s).Ok? && ScanFrom(st, s).value.open == NoQuote
      case Some(MismatchedQuotes(a, b)) => ScanFrom(st, s) == Err(MismatchedQuotes(a, b))
      case Some(UnclosedQuote(q)) => ScanFrom(st, s).Ok? && ScanFrom(st, s).value.open == Open(q)
    decreases |s|
  {
    if s == [] {
      assert Pending(st.open) + QuoteChars(s) == Pending(st.open);
    } else {
      var c := s[0];
      var qs := QuoteChars(s[1..]);
      var all := Pending(st.open) + QuoteChars(s);
      if IsQuote(c) {
        assert QuoteChars(s) == [c] + qs;
        match st.open
        case NoQuote =>
          var next := st.(current := st.current + [c], open := Open(c));
          assert Step(st, c) == Ok(next);
          ScanQuotes(next, s[1..]);
          assert all == Pending(next.open) + qs;
        case Open(q) =>
          assert all == [q, c] + qs;
          if q == c {
            var next := st.(current := st.current + [c], open := NoQuote);
            assert Step(st, c) == Ok(next);
            ScanQuotes(next, s[1..]);
            assert all[2..] == qs;
            assert Pending(next.open) + qs == qs;
          } else {
            assert Step(st, c) == Err(MismatchedQuotes(q, c));
            assert QuotePairing(all) == Some(MismatchedQuotes(q, c));
          }
      } else {
        assert QuoteChars(s) == qs;
        var next := if c == '|' && st.open == NoQuote
                    then Scan(st.commands + [TrimSpace(st.current)], "", NoQuote)
                    else st.(current := st.current + [c]);
        assert Step(st, c) == Ok(next);
        assert next.open == st.open;
        ScanQuotes(next, s[1..]);
      }
    }
  }

  /** `ps` with `cur` glued onto the front of its first piece. */
  function Glue(cur: string, ps: seq<string>): (g: seq<string>)
    requires |ps| >= 1
    ensures |g| == |ps|
  {
    [cur + ps[0]] + ps[1..]
  }

  function Last(ps: seq<string>): string
    requires |ps| >= 1
  {
    ps[|ps| - 1]
  }

  function AllButLast(ps: seq<string>): seq<string>
    requires |ps| >= 1
  {
    ps[..|ps| - 1]
  }

  lemma GluePrepend(cur: string, c: char, ps: seq<string>)
    requires |ps| >= 1
    ensures Glue(cur, Prepend(c, ps)) == Glue(cur + [c], ps)
  {
    assert cur + ([c] + ps[0]) == (cur + [c]) + ps[0];
  }

  lemma GlueSeparator(cur: string, ps: seq<string>)
    requires |ps| >= 1
    ensures Last(Glue(cur, [[]] + ps)) == Last(Glue([], ps))
    ensures AllButLast(Glue(cur, [[]] + ps)) == [cur] + AllButLast(Glue([], ps))
  {
    assert cur + [] == cur;
    assert [] + ps[0] == ps[0];
    assert Glue([], ps) == ps;
    assert Glue(cur, [[]] + ps) == [cur] + ps;
  }

  /** A successful scan from `st` extends `st.commands` with the trimmed
   *  pieces of `s` up to the last one, the first of them glued onto
   *  `st.current`, and leaves the last piece as the current text. */
  lemma {:induction false} ScanPieces(st: Scan, s: string)
    requires ScanFrom(st, s).Ok?
    ensures var g := Glue(st.current, Pieces(s, st.open.Open?));
      ScanFrom(st, s).value.commands == st.commands + TrimEach(AllButLast(g)) &&
      ScanFrom(st, s).value.current == Last(g)
    decreases |s|
  {
    var g := Glue(st.current, Pieces(s, st.open.Open?));
    var fin := ScanFrom(st, s).value;
    if s == [] {
      GlueEmpty(st.current);
    } else {
      var c := s[0];
      var next := Step(st, c).value;
      assert ScanFrom(st, s) == ScanFrom(next, s[1..]);
      ScanPieces(next, s[1..]);
      var rest := Pieces(s[1..], next.open.Open?);
      var gNext := Glue(next.current, rest);
      if c == '|' && st.open == NoQuote {
        assert Pieces(s, false) == [[]] + rest;
        assert next == Scan(st.commands + [TrimSpace(st.current)], [], NoQuote);
        GlueSeparator(st.current, rest);
        CommitSegment(st.commands, st.current, AllButLast(gNext));
      } else {
        assert next.current == st.current + [c];
        assert next.open.Open? == (if IsQuote(c) then !st.open.Open? else st.open.Open?);
        assert Pieces(s, st.open.Open?) == Prepend(c, rest);
        GluePrepend(st.current, c, rest);
      }
    }
  }

  lemma GlueEmpty(cur: string)
    ensures Glue(cur, [[]]) == [cur]
    ensures AllButLast(Glue(cur, [[]])) == [] && Last(Glue(cur, [[]])) == cur
    ensures TrimEach([]) == []
  {
    var e: string := [];
    assert cur + e == cur;
  }

  /** Emitting a trimmed segment before the trimmed rest. */
  lemma CommitSegment(commands: seq<string>, cur: string, rest: seq<string>)
    ensures (commands + [TrimSpace(cur)]) + TrimEach(rest) == commands + TrimEach([cur] + rest)
  {
    assert ([cur] + rest)[1..] == rest;
  }

  lemma {:induction false} TrimEachAppend(a: seq<string>, b: seq<string>)
    ensures TrimEach(a + b) == TrimEach(a) + TrimEach(b)
  {
    if a == [] {
      assert a + b == b;
    } else {
      assert (a + b)[1..] == a[1..] + b;
      TrimEachAppend(a[1..], b);
    }
  }

  /** Emitting the leftover text as a last segment. */
  lemma CommitLast(ps: seq<string>)
    requires |ps| >= 1
    ensures TrimEach(AllButLast(ps)) + [TrimSpace(Last(ps))] == TrimEach(ps)
  {
    var init, last := AllButLast(ps), Last(ps);
    SplitLast(ps);
    TrimEachAppend(init, [last]);
    TrimEachSingle(last);
  }

  lemma SplitLast(ps: seq<string>)
    requires |ps| >= 1
    ensures ps == AllButLast(ps) + [Last(ps)]
  {
  }

  lemma TrimEachSingle(p: string)
    ensures TrimEach([p]) == [TrimSpace(p)]
  {
    assert [p][1..] == [];
  }

  /** The splitter in full: it fails exactly when the quote characters do
   *  not pair up, with the error the pairing rule names, and otherwise
   *  returns the trimmed segments of the input. */
  lemma SplitCharacterized(s: string)
    ensures Split(s) == match QuotePairing(QuoteChars(s))
                        case Some(e) => Err(e)
                        case None => Ok(Segments(s))
  {
    ScanQuotes(Start, s);
    assert Pending(Start.open) + QuoteChars(s) == QuoteChars(s);
    if QuotePairing(QuoteChars(s)).None? {
      ScanPieces(Start, s);
      var ps := Pieces(s, false);
      GlueNothing(ps);
      var fin := ScanFrom(Start, s).value;
      assert fin.commands == TrimEach(AllButLast(ps));
      assert fin.current == Last(ps);
      CommitLast(ps);
    }
  }

  lemma GlueNothing(ps: seq<string>)
    requires |ps| >= 1
    ensures Glue([], ps) == ps
  {
    assert [] + ps[0] == ps[0];
  }

  /** Joining the pieces with `|` gives back the input: only the separating
   *  pipes are removed, and quotes and quoted pipes stay in the text. */
  lemma {:induction false} PiecesJoin(s: string, inQuote: bool)
    ensures Join(Pieces(s, inQuote), '|') == s
    decreases |s|
  {
    if s != [] {
      var c := s[0];
      assert s == [c] + s[1..];
      if IsQuote(c) {
        PiecesJoin(s[1..], !inQuote);
        JoinPrepend(c, Pieces(s[1..], !inQuote), '|');
      } else if c == '|' && !inQuote {
        PiecesJoin(s[1..], false);
        JoinSeparator(Pieces(s[1..], false), '|');
      } else {
        PiecesJoin(s[1..], inQuote);
        JoinPrepend(c, Pieces(s[1..], inQuote), '|');
      }
    }
  }

  /** Without quote characters the pieces are the plain split on `|`. */
  lemma {:induction false} PiecesWithoutQuotes(s: string)
    requires QuoteChars(s) == []
    ensures Pieces(s, false) == SplitOn(s, '|')
    decreases |s|
  {
    if s != [] {
      assert !IsQuote(s[0]) && QuoteChars(s[1..]) == [];
      PiecesWithoutQuotes(s[1..]);
    }
  }

  /** For a command line without quote characters, the splitter returns one
   *  segment per `|`, plus one when the text after the last `|` (all of the
   *  input when there is none) is not empty before trimming. */
  lemma SegmentCountWithoutQuotes(s: string)
    requires QuoteChars(s) == []
    ensures Split(s).Ok?
    ensures |Split(s).value| == Count(s, '|') + (if Last(SplitOn(s, '|')) != [] then 1 else 0)
  {
    SplitCharacterized(s);
    assert QuotePairing(QuoteChars(s)) == None;
    PiecesWithoutQuotes(s);
    SplitOnProperties(s, '|');
    var ps := SplitOn(s, '|');
    assert Split(s).value == Segments(s);
    assert |Segments(s)| == if Last(ps) == [] then |ps| - 1 else |ps|;
  }

  /** A line that is not empty always yields at least one segment. */
  lemma SplitNonEmpty(s: string)
    requires s != [] && Split(s).Ok?
    ensures |Split(s).value| >= 1
  {
    SplitCharacterized(s);
    var ps := Pieces(s, false);
    PiecesJoin(s, false);
    assert |ps| == 1 ==> Join(ps, '|') == ps[0];
  }
}
