/** The JavaScript string built-ins the note client relies on, on `string`
    (a sequence of UTF-16 code units is modelled as a sequence of `char`):
    `String.prototype.trim`, `String.prototype.split` with a one-character
    separator, and `Array.prototype.join`. */
module Text {

  /** The characters `trim` strips: ECMAScript's WhiteSpace (tab, vertical tab,
      form feed, space, no-break space, the byte-order mark and the Unicode
      space separators) and LineTerminator (LF, CR, LS, PS). */
  predicate IsWhitespace(c: char) {
    || c == '\t' || c == '\n' || c == '\U{000B}' || c == '\U{000C}' || c == '\r'
    || c == ' ' || c == '\U{00A0}' || c == '\U{1680}'
    || ('\U{2000}' <= c <= '\U{200A}')
    || c == '\U{2028}' || c == '\U{2029}' || c == '\U{202F}' || c == '\U{205F}'
    || c == '\U{3000}' || c == '\U{FEFF}'
  }

  predicate AllWhitespace(s: string) {
    forall i :: 0 <= i < |s| ==> IsWhitespace(s[i])
  }

  /** A string with no whitespace at either end (the empty string included). */
  predicate IsTrimmed(s: string) {
    s == [] || (!IsWhitespace(s[0]) && !IsWhitespace(s[|s| - 1]))
  }

  /** The length of the run of whitespace at the front of `s`. */
  function LeadingWhitespace(s: string): (k: nat)
    ensures k <= |s|
    ensures forall i :: 0 <= i < k ==> IsWhitespace(s[i])
    ensures k < |s| ==> !IsWhitespace(s[k])
  {
    if s != [] && IsWhitespace(s[0]) then 1 + LeadingWhitespace(s[1..]) else 0
  }

  /** The length of the run of whitespace at the back of `s`. */
  function TrailingWhitespace(s: string): (k: nat)
    ensures k <= |s|
    ensures forall i :: |s| - k <= i < |s| ==> IsWhitespace(s[i])
    ensures k < |s| ==> !IsWhitespace(s[|s| - 1 - k])
  {
    if s != [] && IsWhitespace(s[|s| - 1]) then 1 + TrailingWhitespace(s[..|s| - 1]) else 0
  }

  /** `s.trim()`: the part of `s` between its leading and its trailing whitespace. */
  function Trim(s: string): (r: string)
    ensures LeadingWhitespace(s) + |r| <= |s|
    ensures r == s[LeadingWhitespace(s)..LeadingWhitespace(s) + |r|]
    ensures AllWhitespace(s[LeadingWhitespace(s) + |r|..])
    ensures IsTrimmed(r)
    ensures r == [] <==> AllWhitespace(s)
  {
    var t := s[LeadingWhitespace(s)..];
    t[..|t| - TrailingWhitespace(t)]
  }

  lemma TrimOfTrimmed(s: string)
    requires IsTrimmed(s)
    ensures Trim(s) == s
  {
    assert LeadingWhitespace(s) == 0;
    assert TrailingWhitespace(s) == 0;
  }

  lemma TrimIdempotent(s: string)
    ensures Trim(Trim(s)) == Trim(s)
  {
    TrimOfTrimmed(Trim(s));
  }

  /** Whitespace in front of a string does not change what `trim` returns. */
  lemma TrimAfterWhitespace(c: char, s: string)
    requires IsWhitespace(c)
    ensures Trim([c] + s) == Trim(s)
  {
    var cs := [c] + s;
    assert cs[1..] == s;
    assert LeadingWhitespace(cs) == 1 + LeadingWhitespace(s);
    assert cs[LeadingWhitespace(cs)..] == s[LeadingWhitespace(s)..];
  }

  /** `s.split(sep)` for a one-character separator: the pieces between the
      separators, in order; the empty string gives one empty piece. */
  function Split(s: string, sep: char): (r: seq<string>)
    ensures |r| >= 1
  {
    if s == [] then [[]]
    else
      var rest := Split(s[1..], sep);
      if s[0] == sep then [[]] + rest else [[s[0]] + rest[0]] + rest[1..]
  }

  /** No piece holds the separator. */
  lemma {:induction false} SplitPiecesLackSeparator(s: string, sep: char)
    ensures forall k :: 0 <= k < |Split(s, sep)| ==> sep !in Split(s, sep)[k]
  {
    if s != [] {
      var rest := Split(s[1..], sep);
      SplitPiecesLackSeparator(s[1..], sep);
      if s[0] != sep {
        assert sep !in [s[0]] + rest[0];
      }
    }
  }

  /** `parts.join(glue)`. */
  function Join(parts: seq<string>, glue: string): string {
    if |parts| == 0 then []
    else if |parts| == 1 then parts[0]
    else parts[0] + glue + Join(parts[1..], glue)
  }

  /** Splitting and joining back with the separator gives the original text. */
  lemma {:induction false} JoinSplit(s: string, sep: char)
    ensures Join(Split(s, sep), [sep]) == s
  {
    if s != [] {
      var rest := Split(s[1..], sep);
      JoinSplit(s[1..], sep);
      if s[0] == sep {
        assert Split(s, sep) == [[]] + rest;
        assert ([[]] + rest)[1..] == rest;
        assert s == [sep] + s[1..];
      } else {
        var r := [[s[0]] + rest[0]] + rest[1..];
        assert Split(s, sep) == r;
        if |rest| == 1 {
          assert s == [s[0]] + rest[0];
        } else {
          assert r[1..] == rest[1..];
          assert Join(rest, [sep]) == rest[0] + [sep] + Join(rest[1..], [sep]);
          assert s == [s[0]] + rest[0] + [sep] + Join(rest[1..], [sep]);
        }
      }
    }
  }

  /** A text without the separator is a single piece. */
  lemma {:induction false} SplitWithoutSeparator(s: string, sep: char)
    requires sep !in s
    ensures Split(s, sep) == [s]
  {
    if s != [] {
      SplitWithoutSeparator(s[1..], sep);
      assert [s[0]] + s[1..] == s;
    }
  }

  /** Splitting `a + sep + b` gives the pieces of `a` followed by those of `b`. */
  lemma {:induction false} SplitAround(a: string, sep: char, b: string)
    ensures Split(a + [sep] + b, sep) == Split(a, sep) + Split(b, sep)
  {
    if a == [] {
      assert a + [sep] + b == [sep] + b;
      SplitCons(sep, b, sep);
    } else {
      var t := a[1..] + [sep] + b;
      SplitAround(a[1..], sep, b);
      SplitAroundStep(a[0], a[1..], t, sep, Split(b, sep));
      assert [a[0]] + a[1..] == a;
      assert [a[0]] + t == a + [sep] + b;
    }
  }

  /** The inductive step of `SplitAround`: a character in front of two texts
      whose pieces differ by the trailing pieces `rb` keeps them differing so. */
  lemma SplitAroundStep(c: char, a: string, t: string, sep: char, rb: seq<string>)
    requires Split(t, sep) == Split(a, sep) + rb
    ensures Split([c] + t, sep) == Split([c] + a, sep) + rb
  {
    SplitCons(c, t, sep);
    SplitCons(c, a, sep);
    PrependPiece(c, c == sep, Split(a, sep), rb);
  }

  /** Prepending a character (or, when `opens`, an empty piece) to a list of
      pieces commutes with appending further pieces. */
  lemma PrependPiece(c: char, opens: bool, ra: seq<string>, rb: seq<string>)
    requires |ra| >= 1
    ensures (if opens then [[]] + (ra + rb) else [[c] + (ra + rb)[0]] + (ra + rb)[1..])
         == (if opens then [[]] + ra else [[c] + ra[0]] + ra[1..]) + rb
  {
    if opens {
      assert [[]] + (ra + rb) == ([[]] + ra) + rb;
    } else {
      var head := [c] + ra[0];
      assert (ra + rb)[0] == ra[0] && (ra + rb)[1..] == ra[1..] + rb;
      assert [head] + (ra[1..] + rb) == ([head] + ra[1..]) + rb;
    }
  }

  /** One character in front of a text: a separator opens a new first
      piece, any other character joins the first piece. */
  lemma SplitCons(c: char, s: string, sep: char)
    ensures Split([c] + s, sep) ==
      if c == sep then [[]] + Split(s, sep) else [[c] + Split(s, sep)[0]] + Split(s, sep)[1..]
  {
    assert ([c] + s)[1..] == s;
  }

  /** A character other than the separator in front of a text joins its first piece. */
  lemma SplitAfterChar(c: char, s: string, sep: char)
    requires c != sep
    ensures Split([c] + s, sep) == [[c] + Split(s, sep)[0]] + Split(s, sep)[1..]
  {
    assert ([c] + s)[1..] == s;
  }
}
