/** Unterminated strings: the parity of the quotes in a text decides whether its scan runs into
    a string that is never closed, and such a text scans as if the quote were there. */
module ConditionQuotes {
  import opened Common
  import opened Ids
  import opened Json
  import opened ConditionLexer

  function Quotes(s: Text): nat {
    if s == [] then 0 else (if s[0] == QUOTE then 1 else 0) + Quotes(s[1..])
  }

  predicate Odd(s: Text) {
    Quotes(s) % 2 == 1
  }

  lemma {:induction false} QuotesAppend(a: Text, b: Text)
    ensures Quotes(a + b) == Quotes(a) + Quotes(b)
  {
    if a == [] {
      assert a + b == b;
    } else {
      assert (a + b)[1..] == a[1..] + b;
      QuotesAppend(a[1..], b);
    }
  }

  lemma {:induction false} NoQuotes(s: Text)
    requires forall i :: 0 <= i < |s| ==> s[i] != QUOTE
    ensures Quotes(s) == 0
  {
    if s != [] {
      NoQuotes(s[1..]);
    }
  }

  lemma QuotesSplit(s: Text, n: nat)
    requires n <= |s|
    ensures Quotes(s) == Quotes(s[..n]) + Quotes(s[n..])
  {
    QuotesAppend(s[..n], s[n..]);
    assert s[..n] + s[n..] == s;
  }

  // ---- one turn of the scan ----

  /** A quote opens here and no other follows. */
  predicate OpensUnclosed(s: Text) {
    s != [] && s[0] == QUOTE && forall i :: 1 <= i < |s| ==> s[i] != QUOTE
  }

  /** The scan comes to a string that is never closed. */
  predicate ReachesOpen(s: Text)
    decreases |s|
  {
    s != [] &&
    (OpensUnclosed(s) || (!ScanOne(s).Bad? && ReachesOpen(s[ScanOne(s).length..])))
  }

  lemma ScanString(s: Text)
    requires s != [] && s[0] == QUOTE
    ensures var n := Span(IsNotQuote, s[1..]);
            && ScanOne(s) == Found(Token(StringLit, s[1..1 + n]), if 1 + n < |s| then n + 2 else n + 1)
            && (OpensUnclosed(s) <==> n + 1 == |s|)
  {
    var n := Span(IsNotQuote, s[1..]);
    assert n + 1 < |s| ==> s[1..][n] == s[n + 1] == QUOTE;
    assert forall i :: 1 <= i < n + 1 ==> s[1..][i - 1] == s[i] && IsNotQuote(s[i]);
  }

  /** What is consumed outside strings holds no quote, a closed string holds two. */
  lemma ScanQuotes(s: Text)
    requires s != [] && !ScanOne(s).Bad?
    ensures Quotes(s[..ScanOne(s).length]) == if s[0] != QUOTE then 0 else if OpensUnclosed(s) then 1 else 2
  {
    if s[0] == QUOTE {
      ScanString(s);
      StringQuotes(s, Span(IsNotQuote, s[1..]));
    } else {
      ScanWithoutQuotes(s);
      NoQuotes(s[..ScanOne(s).length]);
    }
  }

  lemma StringQuotes(s: Text, n: nat)
    requires n < |s| && s[0] == QUOTE && (forall i :: 0 <= i < n ==> IsNotQuote(s[1..][i]))
    requires n + 1 < |s| ==> s[n + 1] == QUOTE
    ensures Quotes(s[..n + 1]) == 1
    ensures n + 1 < |s| ==> Quotes(s[..n + 2]) == 2
  {
    assert s[..n + 1] == [QUOTE] + s[1..][..n];
    NoQuotes(s[1..][..n]);
    QuotesAppend([QUOTE], s[1..][..n]);
    if n + 1 < |s| {
      assert s[..n + 2] == s[..n + 1] + [QUOTE];
      QuotesAppend(s[..n + 1], [QUOTE]);
    }
  }

  lemma ScanWithoutQuotes(s: Text)
    requires s != [] && s[0] != QUOTE && !ScanOne(s).Bad?
    ensures forall i :: 0 <= i < ScanOne(s).length ==> s[i] != QUOTE
  {
    if StartsNumber(s) {
      var sign := if s[0] == MINUS then 1 else 0;
      var n := Span(IsNumberChar, s[sign..]);
      forall i | sign <= i < sign + n ensures s[i] != QUOTE {
        assert IsNumberChar(s[sign..][i - sign]);
      }
    }
  }

  lemma {:induction false} SpanAppend(p: CodeUnit -> bool, s: Text, c: CodeUnit)
    requires !p(c)
    ensures Span(p, s + [c]) == Span(p, s)
  {
    if s != [] && p(s[0]) {
      assert (s + [c])[1..] == s[1..] + [c];
      SpanAppend(p, s[1..], c);
    }
  }

  /** A quote at the far end changes nothing about a token before it. */
  lemma ScanAppend(s: Text)
    requires s != [] && !OpensUnclosed(s)
    ensures ScanOne(s + [QUOTE]) == ScanOne(s)
  {
    if s[0] == QUOTE {
      ScanAppendString(s);
    } else if StartsPath(s) {
      SpanAppend(IsPathChar, s, QUOTE);
      PrefixAppend(s, Span(IsPathChar, s));
    } else if StartsNumber(s) {
      ScanAppendNumber(s);
    } else {
      ScanAppendOther(s);
    }
  }

  lemma PrefixAppend(s: Text, n: nat)
    requires n <= |s|
    ensures (s + [QUOTE])[..n] == s[..n]
  {
  }

  lemma ScanAppendString(s: Text)
    requires s != [] && s[0] == QUOTE && !OpensUnclosed(s)
    ensures ScanOne(s + [QUOTE]) == ScanOne(s)
  {
    var n := Span(IsNotQuote, s[1..]);
    ScanString(s);
    ScanString(s + [QUOTE]);
    assert (s + [QUOTE])[1..] == s[1..] + [QUOTE];
    SpanAppend(IsNotQuote, s[1..], QUOTE);
    assert (s + [QUOTE])[1..1 + n] == s[1..1 + n];
  }

  lemma ScanAppendNumber(s: Text)
    requires StartsNumber(s)
    ensures ScanOne(s + [QUOTE]) == ScanOne(s)
  {
    var sign := if s[0] == MINUS then 1 else 0;
    assert (s + [QUOTE])[sign..] == s[sign..] + [QUOTE];
    SpanAppend(IsNumberChar, s[sign..], QUOTE);
    PrefixAppend(s, sign + Span(IsNumberChar, s[sign..]));
  }

  lemma ScanAppendOther(s: Text)
    requires s != [] && s[0] != QUOTE && !StartsPath(s) && !StartsNumber(s)
    ensures ScanOne(s + [QUOTE]) == ScanOne(s)
  {
    var t := s + [QUOTE];
    assert t[0] == s[0] && (|s| > 1 ==> t[1] == s[1]) && (|s| == 1 ==> t[1] == QUOTE);
    assert !StartsPath(t) && !StartsNumber(t) && Operator(t) == Operator(s);
    SpanAppend(IsWordChar, s, QUOTE);
    PrefixAppend(s, Span(IsWordChar, s));
  }

  // ---- parity decides ----

  /** A text that scans runs into an unclosed string if and only if its quotes are odd in number. */
  lemma {:induction false} OpenIffOdd(s: Text)
    requires Lex(s).Some?
    ensures ReachesOpen(s) <==> Odd(s)
    decreases |s|
  {
    if OpensUnclosed(s) {
      OpenIsOdd(s);
    } else if s != [] {
      LexRest(s);
      ParityStep(s);
      OpenIffOdd(s[ScanOne(s).length..]);
    }
  }

  lemma OpenIsOdd(s: Text)
    requires OpensUnclosed(s)
    ensures Odd(s)
  {
    NoQuotes(s[1..]);
  }

  /** A turn of the scan that does not open an unclosed string keeps the parity of what is left. */
  lemma ParityStep(s: Text)
    requires s != [] && !OpensUnclosed(s) && !ScanOne(s).Bad?
    ensures Odd(s) <==> Odd(s[ScanOne(s).length..])
  {
    ScanQuotes(s);
    QuotesSplit(s, ScanOne(s).length);
  }

  lemma LexRest(s: Text)
    requires s != [] && Lex(s).Some?
    ensures !ScanOne(s).Bad? && Lex(s[ScanOne(s).length..]).Some?
  {
  }

  /** A text with an odd number of quotes scans, or fails to scan, exactly like the text with the
      missing quote supplied. */
  lemma {:induction false} ClosingQuoteSupplied(s: Text)
    requires Odd(s)
    ensures Lex(s) == Lex(s + [QUOTE])
    decreases |s|
  {
    if OpensUnclosed(s) {
      OpenStringClosed(s);
    } else {
      var scan := ScanOne(s);
      ScanAppend(s);
      if !scan.Bad? {
        ParityStep(s);
        ClosingQuoteSupplied(s[scan.length..]);
        assert (s + [QUOTE])[scan.length..] == s[scan.length..] + [QUOTE];
      }
    }
  }

  lemma OpenStringClosed(s: Text)
    requires OpensUnclosed(s)
    ensures Lex(s) == Lex(s + [QUOTE]) == Some([Token(StringLit, s[1..]), Token(Eof, [])])
  {
    var body := s[1..];
    assert s == [QUOTE] + body;
    assert forall i :: 0 <= i < |body| ==> IsNotQuote(body[i]) by {
      assert forall i :: 0 <= i < |body| ==> body[i] == s[i + 1];
    }
    ScanOpenString(body);
    LexOne(Token(StringLit, body));
    assert [Token(StringLit, body)] + [Token(Eof, [])] == [Token(StringLit, body), Token(Eof, [])];
  }

  /** The tokens with an empty string before the end token. */
  function Gaining(ts: seq<Token>): seq<Token>
    requires ts != []
  {
    ts[..|ts| - 1] + [Token(StringLit, []), Token(Eof, [])]
  }

  /** With an even number of quotes the extra quote is read as an empty string. */
  lemma {:induction false} EvenGainsString(s: Text)
    requires !Odd(s) && Lex(s).Some?
    ensures Lex(s).value != [] && Lex(s + [QUOTE]) == Some(Gaining(Lex(s).value))
    decreases |s|
  {
    if s == [] {
      NothingGains();
    } else if OpensUnclosed(s) {
      OpenIsOdd(s);
    } else {
      var scan := ScanOne(s);
      LexRest(s);
      ParityStep(s);
      EvenGainsString(s[scan.length..]);
      ScanAppend(s);
      assert (s + [QUOTE])[scan.length..] == s[scan.length..] + [QUOTE];
      LexOnce(s, scan);
      LexOnce(s + [QUOTE], scan);
      GainingLater(TokenOf(scan), Lex(s[scan.length..]).value);
    }
  }

  lemma NothingGains()
    ensures Lex([]) == Some([Token(Eof, [])]) && Lex([] + [QUOTE]) == Some(Gaining([Token(Eof, [])]))
  {
    LexNothing();
    ScanOpenString([]);
    var empty: Text := [];
    assert empty + [QUOTE] == [QUOTE] + empty;
    assert Gaining([Token(Eof, [])]) == [Token(StringLit, []), Token(Eof, [])];
  }

  function TokenOf(scan: Scan): seq<Token> {
    if scan.Found? then [scan.token] else []
  }

  lemma LexOnce(s: Text, scan: Scan)
    requires s != [] && scan == ScanOne(s) && !scan.Bad?
    ensures Lex(s) == Joined(TokenOf(scan), Lex(s[scan.length..]))
  {
    if scan.Blank? && Lex(s[scan.length..]).Some? {
      assert [] + Lex(s[scan.length..]).value == Lex(s[scan.length..]).value;
    }
  }

  lemma GainingLater(front: seq<Token>, ts: seq<Token>)
    requires ts != []
    ensures Gaining(front + ts) == front + Gaining(ts)
  {
    assert (front + ts)[..|front + ts| - 1] == front + ts[..|ts| - 1];
  }

  /** So for a text that scans, supplying a quote changes nothing if and only if one was missing. */
  lemma QuoteMissingIffOdd(s: Text)
    requires Lex(s).Some?
    ensures Lex(s + [QUOTE]) == Lex(s) <==> Odd(s)
  {
    if Odd(s) {
      ClosingQuoteSupplied(s);
    } else {
      EvenGainsString(s);
      assert |Lex(s + [QUOTE]).value| == |Lex(s).value| + 1;
    }
  }
}
