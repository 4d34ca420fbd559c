/**
 * Escaping of the user's search text before it is placed between single
 * quotes in a Drive `q` expression (index.js:52-54). Drive's query language
 * reads `\x` inside a quoted literal as the character `x` and ends the literal
 * at the first `'` not so escaped; `ScanLiteral` is that reader.
 */
module Escaping {
  import opened Wrappers

  /** `s.replace(/c/g, r)` for a one-character pattern and a replacement
      without `$` patterns: every `c` becomes `r`, all else is kept. */
  function ReplaceAll(s: string, c: char, r: string): (t: string)
    ensures c !in s ==> t == s
  {
    if s == [] then []
    else (if s[0] == c then r else [s[0]]) + ReplaceAll(s[1..], c, r)
  }

  lemma {:induction false} ReplaceAllAppend(a: string, b: string, c: char, r: string)
    ensures ReplaceAll(a + b, c, r) == ReplaceAll(a, c, r) + ReplaceAll(b, c, r)
    decreases |a|
  {
    if a == [] {
      assert a + b == b;
    } else {
      assert (a + b)[0] == a[0];
      assert (a + b)[1..] == a[1..] + b;
      ReplaceAllAppend(a[1..], b, c, r);
      var h := if a[0] == c then r else [a[0]];
      assert ReplaceAll(a + b, c, r) == h + ReplaceAll(a[1..] + b, c, r);
      assert ReplaceAll(a, c, r) == h + ReplaceAll(a[1..], c, r);
    }
  }

  /** Step 1 (index.js:53): every backslash is doubled. */
  function DoubleBackslashes(s: string): string {
    ReplaceAll(s, '\\', "\\\\")
  }

  /** Step 2 (index.js:54): every single quote gets a backslash in front. */
  function EscapeQuotes(s: string): string {
    ReplaceAll(s, '\'', "\\'")
  }

  /** The two steps in the source's order. */
  function Escape(s: string): string {
    EscapeQuotes(DoubleBackslashes(s))
  }

  /** What the two steps make of one character. */
  function EscapeChar(x: char): string {
    if x == '\\' then "\\\\" else if x == '\'' then "\\'" else [x]
  }

  /** Escaping works character by character. */
  lemma EscapeCons(x: char, rest: string)
    ensures Escape([x] + rest) == EscapeChar(x) + Escape(rest)
  {
    assert ([x] + rest)[1..] == rest;
    assert DoubleBackslashes([x] + rest) == DoubleBackslashes([x]) + DoubleBackslashes(rest);
    ReplaceAllAppend(DoubleBackslashes([x]), DoubleBackslashes(rest), '\'', "\\'");
    assert EscapeQuotes(DoubleBackslashes([x])) == EscapeChar(x) by {
      if x == '\\' {
        assert "\\\\"[1..] == "\\";
      }
    }
  }

  /** Removes one level of escaping: `\x` reads as `x`. */
  function Unescape(e: string): string
    decreases |e|
  {
    if e == [] then []
    else if e[0] == '\\' && |e| >= 2 then [e[1]] + Unescape(e[2..])
    else [e[0]] + Unescape(e[1..])
  }

  /** Unescaping the escaped text gives the text back. */
  lemma {:induction false} UnescapeEscape(s: string)
    ensures Unescape(Escape(s)) == s
    decreases |s|
  {
    if s != [] {
      var x, rest := s[0], s[1..];
      assert s == [x] + rest;
      EscapeCons(x, rest);
      UnescapeEscape(rest);
      var e := Escape(s);
      if x == '\\' || x == '\'' {
        assert e[2..] == Escape(rest);
      } else {
        assert e[1..] == Escape(rest);
      }
    }
  }

  /** In the escaped text every `'` has a backslash right before it. */
  lemma {:induction false} QuotesAreEscaped(s: string)
    ensures forall k :: 0 <= k < |Escape(s)| && Escape(s)[k] == '\'' ==> k > 0 && Escape(s)[k - 1] == '\\'
    decreases |s|
  {
    if s == [] {
      assert Escape(s) == [];
    } else {
      var x, rest := s[0], s[1..];
      assert s == [x] + rest;
      EscapeCons(x, rest);
      QuotesAreEscaped(rest);
      var e, h, t := Escape(s), EscapeChar(x), Escape(rest);
      forall k | 0 <= k < |e| && e[k] == '\'' ensures k > 0 && e[k - 1] == '\\' {
        if k >= |h| {
          assert t[k - |h|] == '\'';
          if k - |h| == 0 {
            assert false;
          }
        }
      }
    }
  }

  /** What a quoted literal reads as: its value, and the text after the
      closing quote. */
  datatype Scanned = Scanned(value: string, rest: string)

  /** Reads the body of a quoted literal whose opening `'` has been consumed:
      `\x` contributes `x`, and the first unescaped `'` ends it. `None` when
      the input ends before a closing quote. */
  function ScanLiteral(s: string): Option<Scanned>
    decreases |s|
  {
    if s == [] then None
    else if s[0] == '\'' then Some(Scanned([], s[1..]))
    else if s[0] == '\\' then
      if |s| == 1 then None
      else match ScanLiteral(s[2..])
        case None => None
        case Some(sc) => Some(Scanned([s[1]] + sc.value, sc.rest))
    else match ScanLiteral(s[1..])
      case None => None
      case Some(sc) => Some(Scanned([s[0]] + sc.value, sc.rest))
  }

  /** The quote placed after the escaped text is the one that closes the
      literal: the literal reads as exactly the original text, and whatever
      follows the quote is left untouched. */
  lemma {:induction false} LiteralClosesAtQuote(s: string, after: string)
    ensures ScanLiteral(Escape(s) + "'" + after) == Some(Scanned(s, after))
    decreases |s|
  {
    if s == [] {
      assert Escape(s) == [];
      assert (Escape(s) + "'" + after)[1..] == after;
    } else {
      var x, rest := s[0], s[1..];
      var h, er := EscapeChar(x), Escape(rest);
      var tail := er + "'" + after;
      assert h + er + "'" + after == h + tail;
      assert s == [x] + rest;
      EscapeCons(x, rest);
      LiteralClosesAtQuote(rest, after);
      ScanEscapedChar(x, tail);
    }
  }

  /** One escaped character contributes exactly that character to the
      literal's value. */
  lemma ScanEscapedChar(x: char, tail: string)
    ensures ScanLiteral(EscapeChar(x) + tail) ==
      match ScanLiteral(tail)
      case None => None
      case Some(sc) => Some(Scanned([x] + sc.value, sc.rest))
  {
    var e := EscapeChar(x) + tail;
    if x == '\\' || x == '\'' {
      assert e[0] == '\\' && e[1] == x && |e| >= 2;
      assert e[2..] == tail;
    } else {
      assert e[0] == x;
      assert e[1..] == tail;
    }
  }

  /** The steps in the other order (quotes first) would not do: the backslash
      placed before a quote is itself doubled, so the literal built from `'`
      reads as a lone backslash and the quote after it closes the literal. */
  lemma QuotesFirstClosesEarly()
    ensures DoubleBackslashes(EscapeQuotes("'")) == "\\\\'"
    ensures ScanLiteral(DoubleBackslashes(EscapeQuotes("'")) + "'") == Some(Scanned("\\", "'"))
    ensures Unescape(DoubleBackslashes(EscapeQuotes("'"))) != "'"
  {
    assert EscapeQuotes("'") == "\\'";
    assert "\\'"[1..] == "'";
    assert DoubleBackslashes("\\'") == "\\\\'";
    var w := "\\\\'" + "'";
    assert DoubleBackslashes(EscapeQuotes("'")) + "'" == w;
    assert w[0] == '\\' && w[1] == '\\';
    assert w[2..] == "''";
    assert ScanLiteral("''") == Some(Scanned([], "'"));
    assert ScanLiteral(w) == Some(Scanned([w[1]] + [], "'"));
    assert [w[1]] + [] == "\\";
    assert "''"[1..] == "'";
    assert "\\\\'"[2..] == "'";
  }
}
