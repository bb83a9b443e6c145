/**
 * The splitter on concrete command lines: a quoted pipe kept inside its
 * segment, and the two parse errors. The errors follow from the
 * characterization of `Split` by the pairing of quote characters; the
 * quoted pipe follows from running the scanner over the line piece by
 * piece.
 */
module SplitterCases {
  import opened Wrappers
  import opened GoStrings
  import opened Splitter

  /** `a` has no quote characters. */
  predicate QuoteFree(a: string) {
    forall k :: 0 <= k < |a| ==> !IsQuote(a[k])
  }

  /** `a` has neither quote characters nor pipes. */
  predicate Plain(a: string) {
    forall k :: 0 <= k < |a| ==> !IsQuote(a[k]) && a[k] != '|'
  }

  /** The quote characters of a concatenation are those of its parts. */
  lemma {:induction false} QuoteCharsAppend(a: string, b: string)
    ensures QuoteChars(a + b) == QuoteChars(a) + QuoteChars(b)
  {
    if a != [] {
      assert (a + b)[1..] == a[1..] + b;
      QuoteCharsAppend(a[1..], b);
    } else {
      assert a + b == b;
    }
  }

  /** Text without quote characters contributes none. */
  lemma {:induction false} QuoteCharsPlain(a: string)
    requires QuoteFree(a)
    ensures QuoteChars(a) == []
  {
    if a != [] {
      assert forall k :: 0 <= k < |a| - 1 ==> a[1..][k] == a[k + 1];
      QuoteCharsPlain(a[1..]);
    }
  }

  /** The quote characters of `a`, a quote `q`, and `b`, when `a` and `b`
   *  have none. */
  lemma QuoteCharsAround(a: string, q: char, b: string)
    requires IsQuote(q) && QuoteFree(a) && QuoteFree(b)
    ensures QuoteChars(a + [q] + b) == [q]
  {
    QuoteCharsPlain(a);
    QuoteCharsPlain(b);
    QuoteCharsAppend(a + [q], b);
    QuoteCharsAppend(a, [q]);
    assert QuoteChars([q]) == [q] + QuoteChars([q][1..]);
    assert [q][1..] == [];
  }

  /** The quote characters of the unclosed example. */
  lemma UnclosedQuoteChars()
    ensures QuoteChars("grep 'foo") == ['\'']
  {
    QuoteCharsAround("grep ", '\'', "foo");
    assert "grep " + ['\''] + "foo" == "grep 'foo";
  }

  /** A single-quoted span left open reports the single quote. */
  lemma UnclosedQuoteCase()
    ensures Split("grep 'foo") == Err(UnclosedQuote('\''))
  {
    UnclosedQuoteChars();
    SplitCharacterized("grep 'foo");
  }

  /** The quote characters of the mismatched example, in order. */
  lemma MismatchedQuoteChars()
    ensures QuoteChars("grep \"foo`") == ['"', '`']
  {
    QuoteCharsAround("grep ", '"', "foo");
    QuoteCharsAround("", '`', "");
    QuoteCharsAppend("grep " + ['"'] + "foo", "" + ['`'] + "");
    assert ("grep " + ['"'] + "foo") + ("" + ['`'] + "") == "grep \"foo`";
  }

  /** A double-quoted span closed by a backquote reports both characters,
   *  the open one first. */
  lemma MismatchedQuotesCase()
    ensures Split("grep \"foo`") == Err(MismatchedQuotes('"', '`'))
  {
    MismatchedQuoteChars();
    SplitCharacterized("grep \"foo`");
  }

  // ---------------------------------------------------------------------------
  // A quoted pipe.

  /** Scanning a concatenation scans the second part from where the first
   *  part left the scanner. */
  lemma {:induction false} ScanFromAppend(st: Scan, a: string, b: string)
    ensures ScanFrom(st, a + b) == match ScanFrom(st, a)
                                   case Err(e) => Err(e)
                                   case Ok(m) => ScanFrom(m, b)
    decreases |a|
  {
    if a != [] {
      assert (a + b)[1..] == a[1..] + b;
      assert (a + b)[0] == a[0];
      match Step(st, a[0])
      case Err(e) =>
      case Ok(next) => ScanFromAppend(next, a[1..], b);
    } else {
      assert a + b == b;
    }
  }

  /** Text without quotes, and without pipes unless a quote is open, is
   *  copied into the segment being built. */
  lemma {:induction false} ScanText(st: Scan, a: string)
    requires QuoteFree(a)
    requires st.open.Open? || Plain(a)
    ensures ScanFrom(st, a) == Ok(st.(current := st.current + a))
    decreases |a|
  {
    if a != [] {
      var next := st.(current := st.current + [a[0]]);
      StepText(st, a[0]);
      TextTail(a);
      ScanText(next, a[1..]);
      assert st.current + [a[0]] + a[1..] == st.current + a;
    } else {
      assert st.current + a == st.current;
    }
  }

  /** One character of such text is appended. */
  lemma StepText(st: Scan, c: char)
    requires !IsQuote(c) && (c != '|' || st.open.Open?)
    ensures Step(st, c) == Ok(st.(current := st.current + [c]))
  {
  }

  /** The tail of quote-free or plain text is quote-free or plain. */
  lemma TextTail(a: string)
    requires a != []
    ensures QuoteFree(a) ==> QuoteFree(a[1..]) && !IsQuote(a[0])
    ensures Plain(a) ==> Plain(a[1..]) && a[0] != '|'
  {
    assert forall k :: 0 <= k < |a| - 1 ==> a[1..][k] == a[k + 1];
  }

  /** Scanning one character is one step. */
  lemma ScanOne(st: Scan, c: char)
    ensures ScanFrom(st, [c]) == Step(st, c)
  {
    assert [c][1..] == [];
  }

  /** The segment text `a q b q c`: quoted `b`, plain `a` and `c`. */
  lemma ScanQuotedSegment(cs: seq<string>, a: string, q: char, b: string, c: string)
    requires IsQuote(q) && Plain(a) && QuoteFree(b) && Plain(c)
    ensures ScanFrom(Scan(cs, "", NoQuote), a + [q] + b + [q] + c) ==
            Ok(Scan(cs, a + [q] + b + [q] + c, NoQuote))
  {
    var s0 := Scan(cs, "", NoQuote);
    ScanFromAppend(s0, a + [q] + b + [q], c);
    ScanFromAppend(s0, a + [q] + b, [q]);
    ScanFromAppend(s0, a + [q], b);
    ScanFromAppend(s0, a, [q]);
    ScanText(s0, a);
    assert "" + a == a;
    var s1 := Scan(cs, a, NoQuote);
    ScanOne(s1, q);
    var s2 := Scan(cs, a + [q], Open(q));
    ScanText(s2, b);
    var s3 := Scan(cs, a + [q] + b, Open(q));
    ScanOne(s3, q);
    var s4 := Scan(cs, a + [q] + b + [q], NoQuote);
    ScanText(s4, c);
  }

  /** Scanning a segment, a pipe and plain text: one segment emitted, the
   *  text left in the buffer. */
  lemma ScanQuotedThenPlain(a: string, q: char, b: string, c: string, d: string)
    requires IsQuote(q) && Plain(a) && QuoteFree(b) && Plain(c) && Plain(d)
    ensures var seg := a + [q] + b + [q] + c;
      ScanFrom(Start, seg + "|" + d) == Ok(Scan([TrimSpace(seg)], d, NoQuote))
  {
    var seg := a + [q] + b + [q] + c;
    ScanFromAppend(Start, seg + "|", d);
    ScanFromAppend(Start, seg, "|");
    ScanQuotedSegment([], a, q, b, c);
    var s5 := Scan([], seg, NoQuote);
    ScanOne(s5, '|');
    var s6 := Scan([TrimSpace(seg)], "", NoQuote);
    assert [] + [TrimSpace(seg)] == [TrimSpace(seg)];
    assert ScanFrom(Start, seg + "|") == Ok(s6);
    ScanText(s6, d);
    assert "" + d == d;
  }

  /** A segment with one quoted span followed by a pipe and plain text
   *  splits into two trimmed segments; a pipe inside the span does not
   *  split. */
  lemma SplitQuotedThenPlain(a: string, q: char, b: string, c: string, d: string)
    requires IsQuote(q) && Plain(a) && QuoteFree(b) && Plain(c) && Plain(d) && d != []
    ensures Split(a + [q] + b + [q] + c + "|" + d) ==
            Ok([TrimSpace(a + [q] + b + [q] + c), TrimSpace(d)])
  {
    var seg := a + [q] + b + [q] + c;
    ScanQuotedThenPlain(a, q, b, c, d);
    assert [TrimSpace(seg)] + [TrimSpace(d)] == [TrimSpace(seg), TrimSpace(d)];
  }

  /** `grep 'a|b' | wc -l` splits into `grep 'a|b'` and `wc -l`. */
  lemma QuotedPipeCase()
    ensures Split("grep 'a|b' | wc -l") == Ok(["grep 'a|b'", "wc -l"])
  {
    SplitQuotedThenPlain("grep ", '\'', "a|b", " ", " wc -l");
    QuotedPipeText();
    QuotedPipeTrims();
  }

  /** The example line as the pieces of `SplitQuotedThenPlain`. */
  lemma QuotedPipeText()
    ensures "grep " + ['\''] + "a|b" + ['\''] + " " == "grep 'a|b' "
    ensures "grep 'a|b' " + "|" + " wc -l" == "grep 'a|b' | wc -l"
  {
  }

  /** The two segments trimmed. */
  lemma QuotedPipeTrims()
    ensures TrimSpace("grep 'a|b' ") == "grep 'a|b'"
    ensures TrimSpace(" wc -l") == "wc -l"
  {
  }

  // ---------------------------------------------------------------------------
  // Trailing pipes.

  /** Plain text followed by a pipe: one segment emitted, nothing left. */
  lemma ScanTrailingPipe(a: string)
    requires Plain(a)
    ensures ScanFrom(Start, a + "|") == Ok(Scan([TrimSpace(a)], "", NoQuote))
  {
    ScanFromAppend(Start, a, "|");
    ScanText(Start, a);
    assert "" + a == a;
    ScanOne(Scan([], a, NoQuote), '|');
    assert [] + [TrimSpace(a)] == [TrimSpace(a)];
  }

  /** A final pipe after plain text is dropped: the text is the only
   *  segment. */
  lemma SplitTrailingPipe(a: string)
    requires Plain(a)
    ensures Split(a + "|") == Ok([TrimSpace(a)])
  {
    ScanTrailingPipe(a);
  }

  /** Only the final pipe is dropped: plain text followed by two pipes
   *  splits into its trimmed text and a blank segment. */
  lemma SplitDoublePipe(a: string)
    requires Plain(a)
    ensures Split(a + "||") == Ok([TrimSpace(a), ""])
  {
    assert a + "||" == (a + "|") + "|";
    ScanFromAppend(Start, a + "|", "|");
    ScanTrailingPipe(a);
    var s1 := Scan([TrimSpace(a)], "", NoQuote);
    ScanOne(s1, '|');
    TrimBlank("");
    assert [TrimSpace(a)] + [TrimSpace("")] == [TrimSpace(a), ""];
  }

  /** `a ||` splits into `a` and a blank segment; `|` into one blank
   *  segment. */
  lemma TrailingPipesCases()
    ensures Split("a ||") == Ok(["a", ""])
    ensures Split("|") == Ok([""])
  {
    SplitDoublePipe("a ");
    assert "a " + "||" == "a ||";
    assert TrimSpace("a ") == "a";
    SplitTrailingPipe("");
    assert "" + "|" == "|";
    TrimBlank("");
  }
}
