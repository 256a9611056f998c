/**
  String helpers that mirror the Python string operations the application uses
  (`str.strip`, `str.replace` of one character, `str.split(",")`, `" ".join`,
  case-insensitive containment), and the attribute tokeniser `_split_tokens`
  of myapp/views.py.
 */
module Text {
  import opened Wrappers

  /** The characters for which Python's `str.isspace()` holds; `str.strip()` removes exactly these. */
  predicate IsSpace(c: char) {
    ('\U{0009}' <= c <= '\U{000D}') || ('\U{001C}' <= c <= '\U{001F}') || c == ' '
    || c == '\U{0085}' || c == '\U{00A0}' || c == '\U{1680}'
    || ('\U{2000}' <= c <= '\U{200A}') || c == '\U{2028}' || c == '\U{2029}'
    || c == '\U{202F}' || c == '\U{205F}' || c == '\U{3000}'
  }

  /** The five attribute separators: comma, fullwidth comma, ideographic enumeration mark, pipe, slash. */
  predicate IsSeparator(c: char) {
    c == ',' || c == '\U{FF0C}' || c == '\U{3001}' || c == '|' || c == '/'
  }

  predicate AllSpace(s: string) {
    forall i :: 0 <= i < |s| ==> IsSpace(s[i])
  }

  /** `s.lstrip()` */
  function TrimStart(s: string): (r: string)
    ensures |r| <= |s| && r == s[|s| - |r|..]
    ensures r == [] || !IsSpace(r[0])
  {
    if s != [] && IsSpace(s[0]) then TrimStart(s[1..]) else s
  }

  /** What `lstrip` drops is white space. */
  lemma {:induction false} TrimStartDropsSpace(s: string)
    ensures forall i :: 0 <= i < |s| - |TrimStart(s)| ==> IsSpace(s[i])
  {
    if s != [] && IsSpace(s[0]) {
      TrimStartDropsSpace(s[1..]);
      assert forall i :: 1 <= i < |s| ==> s[i] == s[1..][i - 1];
    }
  }

  /** `s.rstrip()` */
  function TrimEnd(s: string): (r: string)
    ensures |r| <= |s| && r == s[..|r|]
    ensures r == [] || !IsSpace(r[|r| - 1])
  {
    if s != [] && IsSpace(s[|s| - 1]) then TrimEnd(s[..|s| - 1]) else s
  }

  /** What `rstrip` drops is white space. */
  lemma {:induction false} TrimEndDropsSpace(s: string)
    ensures forall i :: |TrimEnd(s)| <= i < |s| ==> IsSpace(s[i])
  {
    if s != [] && IsSpace(s[|s| - 1]) {
      TrimEndDropsSpace(s[..|s| - 1]);
    }
  }

  /** `s.strip()`: the longest slice of `s` that neither starts nor ends with white space. */
  function Strip(s: string): (r: string)
    ensures r == [] || (!IsSpace(r[0]) && !IsSpace(r[|r| - 1]))
    ensures forall c :: c in r ==> c in s
    ensures r == [] <==> AllSpace(s)
    ensures exists i, j :: 0 <= i <= j <= |s| && r == s[i..j] && AllSpace(s[..i]) && AllSpace(s[j..])
  {
    StripFacts(s);
    StripSlice(s);
    TrimEnd(TrimStart(s))
  }

  /** `strip` cuts white space only, and only at the two ends. */
  lemma StripSlice(s: string)
    ensures var r := TrimEnd(TrimStart(s));
      exists i, j :: 0 <= i <= j <= |s| && r == s[i..j] && AllSpace(s[..i]) && AllSpace(s[j..])
  {
    var t := TrimStart(s);
    var r := TrimEnd(t);
    assert AllSpace(s[..|s| - |t|]) by { LeadingSpace(s); }
    assert AllSpace(t[|r|..]) by { TrailingSpace(t); }
    SuffixPrefixSlice(s, t, r);
  }

  /**
    A prefix `r` of a suffix `t` of `s`, where `s` has only white space before
    `t` and `t` only white space after `r`, is a slice of `s` with only white
    space around it.
   */
  lemma SuffixPrefixSlice(s: string, t: string, r: string)
    requires |t| <= |s| && t == s[|s| - |t|..] && AllSpace(s[..|s| - |t|])
    requires |r| <= |t| && r == t[..|r|] && AllSpace(t[|r|..])
    ensures exists i, j :: 0 <= i <= j <= |s| && r == s[i..j] && AllSpace(s[..i]) && AllSpace(s[j..])
  {
    var i := |s| - |t|;
    var j := i + |r|;
    assert r == s[i..j];
    assert s[j..] == t[|r|..];
  }

  lemma LeadingSpace(s: string)
    ensures AllSpace(s[..|s| - |TrimStart(s)|])
  {
    TrimStartDropsSpace(s);
  }

  lemma TrailingSpace(t: string)
    ensures AllSpace(t[|TrimEnd(t)|..])
  {
    TrimEndDropsSpace(t);
    var n := |TrimEnd(t)|;
    assert forall k :: 0 <= k < |t| - n ==> t[n..][k] == t[n + k];
  }

  lemma StripFacts(s: string)
    ensures var r := TrimEnd(TrimStart(s));
      && (r == [] || (!IsSpace(r[0]) && !IsSpace(r[|r| - 1])))
      && (forall c :: c in r ==> c in s)
      && (r == [] <==> AllSpace(s))
  {
    var t := TrimStart(s);
    var r := TrimEnd(t);
    SliceKeeps(s, t, r);
    StripEmpty(s, t, r);
    StripEnds(t, r);
  }

  /** A prefix `r` of a suffix `t` of `s` holds only characters of `s`. */
  lemma SliceKeeps(s: string, t: string, r: string)
    requires |t| <= |s| && t == s[|s| - |t|..]
    requires |r| <= |t| && r == t[..|r|]
    ensures forall c :: c in r ==> c in s
  {
    forall c | c in r ensures c in s {
      var k :| 0 <= k < |r| && r[k] == c;
      assert t[k] == c;
      assert s[|s| - |t| + k] == c;
    }
  }

  /** A prefix of a string that starts with a non-space also starts with one. */
  lemma StripEnds(t: string, r: string)
    requires t == [] || !IsSpace(t[0])
    requires |r| <= |t| && r == t[..|r|]
    requires r == [] || !IsSpace(r[|r| - 1])
    ensures r == [] || (!IsSpace(r[0]) && !IsSpace(r[|r| - 1]))
  {
    if r != [] {
      assert r[0] == t[0];
    }
  }

  /** `Strip` leaves nothing exactly when its input is all white space. */
  lemma StripEmpty(s: string, t: string, r: string)
    requires t == TrimStart(s) && r == TrimEnd(t)
    ensures r == [] <==> AllSpace(s)
  {
    if r == [] {
      TrimStartDropsSpace(s);
      TrimEndDropsSpace(t);
      assert t == [];
    } else {
      assert r[0] == s[|s| - |t|];
    }
  }

  /** A string that `Strip` leaves as it is. */
  predicate IsStripped(s: string) {
    s == [] || (!IsSpace(s[0]) && !IsSpace(s[|s| - 1]))
  }

  lemma StripStripped(s: string)
    requires IsStripped(s)
    ensures Strip(s) == s
  {
  }

  /** `s.replace(a, b)` for single characters `a` and `b`. */
  function ReplaceChar(s: string, a: char, b: char): (r: string)
    ensures |r| == |s|
    ensures forall i :: 0 <= i < |s| ==> r[i] == (if s[i] == a then b else s[i])
  {
    if s == [] then [] else [if s[0] == a then b else s[0]] + ReplaceChar(s[1..], a, b)
  }

  /** `s.split(sep)` with an explicit one-character separator: always at least one piece. */
  function SplitOn(s: string, sep: char): (pieces: seq<string>)
    ensures |pieces| >= 1
    ensures forall i :: 0 <= i < |pieces| ==> sep !in pieces[i]
  {
    if s == [] then [[]]
    else if s[0] == sep then [[]] + SplitOn(s[1..], sep)
    else
      var rest := SplitOn(s[1..], sep);
      [[s[0]] + rest[0]] + rest[1..]
  }

  /** `sep.join(pieces)` */
  function JoinWith(pieces: seq<string>, sep: char): string {
    if |pieces| == 0 then []
    else if |pieces| == 1 then pieces[0]
    else pieces[0] + [sep] + JoinWith(pieces[1..], sep)
  }

  /** Splitting undoes joining, so `SplitOn` loses nothing. */
  lemma {:induction false} JoinSplit(s: string, sep: char)
    ensures JoinWith(SplitOn(s, sep), sep) == s
  {
    if s == [] {
    } else if s[0] == sep {
      JoinSplit(s[1..], sep);
      var rest := SplitOn(s[1..], sep);
      assert SplitOn(s, sep) == [[]] + rest;
      assert ([[]] + rest)[1..] == rest;
    } else {
      JoinSplit(s[1..], sep);
      var rest := SplitOn(s[1..], sep);
      var p := SplitOn(s, sep);
      assert p == [[s[0]] + rest[0]] + rest[1..];
      if |rest| == 1 {
        assert p == [[s[0]] + rest[0]];
      } else {
        assert p[1..] == rest[1..];
        assert JoinWith(rest, sep) == rest[0] + [sep] + JoinWith(rest[1..], sep);
      }
    }
  }

  /** Joining pieces free of the separator and splitting again gives the pieces back. */
  lemma {:induction false} SplitJoin(pieces: seq<string>, sep: char)
    requires |pieces| >= 1
    requires forall i :: 0 <= i < |pieces| ==> sep !in pieces[i]
    ensures SplitOn(JoinWith(pieces, sep), sep) == pieces
  {
    if |pieces| == 1 {
      SplitNoSeparator(pieces[0], sep);
    } else {
      SplitJoin(pieces[1..], sep);
      SplitAfter(pieces[0], JoinWith(pieces[1..], sep), sep);
      assert [pieces[0]] + pieces[1..] == pieces;
    }
  }

  lemma {:induction false} SplitNoSeparator(s: string, sep: char)
    requires sep !in s
    ensures SplitOn(s, sep) == [s]
  {
    if s != [] {
      SplitNoSeparator(s[1..], sep);
      assert [s[0]] + s[1..] == s;
    }
  }

  /** A separator-free prefix followed by the separator becomes the first piece. */
  lemma {:induction false} SplitAfter(a: string, b: string, sep: char)
    requires sep !in a
    ensures SplitOn(a + [sep] + b, sep) == [a] + SplitOn(b, sep)
  {
    if a == [] {
      assert a + [sep] + b == [sep] + b;
      assert ([sep] + b)[1..] == b;
    } else {
      var s := a + [sep] + b;
      assert s[0] == a[0] && s[1..] == a[1..] + [sep] + b;
      SplitAfter(a[1..], b, sep);
      assert [a[0]] + a[1..] == a;
    }
  }

  /** Splitting a concatenation around one separator concatenates the splits, merging the touching pieces. */
  lemma {:induction false} SplitAround(a: string, b: string, sep: char)
    ensures SplitOn(a + [sep] + b, sep) == SplitOn(a, sep) + SplitOn(b, sep)
  {
    if a == [] {
      assert a + [sep] + b == [sep] + b;
      assert ([sep] + b)[1..] == b;
    } else {
      var s := a + [sep] + b;
      assert s[0] == a[0] && s[1..] == a[1..] + [sep] + b;
      SplitAround(a[1..], b, sep);
      if a[0] != sep {
        var ra := SplitOn(a[1..], sep);
        var rs := SplitOn(s[1..], sep);
        assert rs == ra + SplitOn(b, sep);
        assert rs[0] == ra[0];
        assert rs[1..] == ra[1..] + SplitOn(b, sep);
      }
    }
  }

  // ---------------------------------------------------------------------------
  // Case-insensitive containment (`field__icontains`)

  /** ASCII lower-casing of one character. */
  function LowerChar(c: char): char {
    if 'A' <= c <= 'Z' then (c as int + 32) as char else c
  }

  function Lower(s: string): (r: string)
    ensures |r| == |s|
    ensures forall i :: 0 <= i < |s| ==> r[i] == LowerChar(s[i])
  {
    if s == [] then [] else [LowerChar(s[0])] + Lower(s[1..])
  }

  /** `needle in hay` */
  predicate Contains(hay: string, needle: string) {
    needle <= hay || (hay != [] && Contains(hay[1..], needle))
  }

  lemma {:induction false} ContainsAt(hay: string, needle: string, k: nat)
    requires k + |needle| <= |hay| && hay[k..k + |needle|] == needle
    ensures Contains(hay, needle)
  {
    if k > 0 {
      assert hay[1..][k - 1..k - 1 + |needle|] == needle;
      ContainsAt(hay[1..], needle, k - 1);
    }
  }

  /** The converse: `needle in hay` holds only where `needle` occurs at some offset. */
  lemma {:induction false} ContainsFound(hay: string, needle: string)
    requires Contains(hay, needle)
    ensures exists k :: 0 <= k <= |hay| && needle <= hay[k..]
    decreases |hay|
  {
    if needle <= hay {
      assert hay[0..] == hay;
    } else {
      ContainsFound(hay[1..], needle);
      var k :| 0 <= k <= |hay[1..]| && needle <= hay[1..][k..];
      assert hay[1..][k..] == hay[k + 1..];
    }
  }

  /** `field__icontains=needle`: a NULL field matches nothing. */
  predicate IContains(field: Option<string>, needle: string) {
    field.Some? && Contains(Lower(field.value), Lower(needle))
  }

  // ---------------------------------------------------------------------------
  // `_split_tokens`

  /** A token as `_split_tokens` produces it: non-empty, stripped, free of separators. */
  predicate IsToken(t: string) {
    t != [] && IsStripped(t) && forall c :: c in t ==> !IsSeparator(c)
  }

  /** The four `replace` calls that turn every separator into `,`. */
  function NormalizeSeparators(s: string): (r: string)
    ensures |r| == |s|
    ensures forall i :: 0 <= i < |s| ==> r[i] == (if IsSeparator(s[i]) then ',' else s[i])
  {
    ReplaceChar(ReplaceChar(ReplaceChar(ReplaceChar(s, '\U{FF0C}', ','), '\U{3001}', ','), '|', ','), '/', ',')
  }

  /** `[t.strip() for t in pieces if t.strip()]` */
  function CleanPieces(pieces: seq<string>): (tokens: seq<string>)
    ensures |tokens| <= |pieces|
  {
    if pieces == [] then []
    else
      var t := Strip(pieces[0]);
      (if t == [] then [] else [t]) + CleanPieces(pieces[1..])
  }

  function SplitTokens(value: Option<string>): (tokens: seq<string>)
    ensures value.None? || value == Some([]) ==> tokens == []
  {
    if value.None? || value.value == [] then []
    else CleanPieces(SplitOn(NormalizeSeparators(value.value), ','))
  }

  /** The empty string goes through the general path to the same empty result. */
  lemma SplitTokensUniform(v: string)
    ensures SplitTokens(Some(v)) == CleanPieces(SplitOn(NormalizeSeparators(v), ','))
  {
    if v == [] {
      assert NormalizeSeparators(v) == [];
    }
  }

  lemma {:induction false} CleanPiecesAppend(a: seq<string>, b: seq<string>)
    ensures CleanPieces(a + b) == CleanPieces(a) + CleanPieces(b)
  {
    if a != [] {
      assert (a + b)[1..] == a[1..] + b;
      var t := Strip(a[0]);
      var kept := if t == [] then [] else [t];
      assert CleanPieces(a + b) == kept + CleanPieces(a[1..] + b);
      assert CleanPieces(a) == kept + CleanPieces(a[1..]);
      CleanPiecesAppend(a[1..], b);
    } else {
      assert a + b == b;
    }
  }

  lemma {:induction false} CleanPiecesAreTokens(pieces: seq<string>)
    requires forall i :: 0 <= i < |pieces| ==> ',' !in pieces[i]
    requires forall i, c :: 0 <= i < |pieces| && c in pieces[i] ==> c == ',' || !IsSeparator(c)
    ensures forall i :: 0 <= i < |CleanPieces(pieces)| ==> IsToken(CleanPieces(pieces)[i])
  {
    if pieces != [] {
      CleanPiecesAreTokens(pieces[1..]);
    }
  }

  /**
    Every token is non-empty, carries no surrounding white space and contains
    none of the five separators.
   */
  lemma TokensAreClean(value: Option<string>)
    ensures forall i :: 0 <= i < |SplitTokens(value)| ==> IsToken(SplitTokens(value)[i])
  {
    if value.Some? && value.value != [] {
      var n := NormalizeSeparators(value.value);
      var pieces := SplitOn(n, ',');
      forall i, c | 0 <= i < |pieces| && c in pieces[i] ensures c == ',' || !IsSeparator(c) {
        PieceCharsFrom(n, ',', i, c);
      }
      CleanPiecesAreTokens(pieces);
    }
  }

  lemma {:induction false} PieceCharsFrom(s: string, sep: char, i: nat, c: char)
    requires i < |SplitOn(s, sep)| && c in SplitOn(s, sep)[i]
    ensures c in s
  {
    if s != [] && s[0] != sep {
      var rest := SplitOn(s[1..], sep);
      if i == 0 {
        if c != s[0] { PieceCharsFrom(s[1..], sep, 0, c); }
      } else {
        PieceCharsFrom(s[1..], sep, i, c);
      }
    } else if s != [] {
      PieceCharsFrom(s[1..], sep, i - 1, c);
    }
  }

  lemma NormalizeAround(a: string, sep: char, b: string)
    requires IsSeparator(sep)
    ensures NormalizeSeparators(a + [sep] + b) == NormalizeSeparators(a) + [','] + NormalizeSeparators(b)
  {
  }

  /**
    Tokens keep their input order: text before a separator contributes its
    tokens ahead of the text after it.
   */
  lemma TokensInOrder(a: string, sep: char, b: string)
    requires IsSeparator(sep)
    ensures SplitTokens(Some(a + [sep] + b)) == SplitTokens(Some(a)) + SplitTokens(Some(b))
  {
    SplitTokensUniform(a + [sep] + b);
    SplitTokensUniform(a);
    SplitTokensUniform(b);
    NormalizeAround(a, sep, b);
    SplitAround(NormalizeSeparators(a), NormalizeSeparators(b), ',');
    CleanPiecesAppend(SplitOn(NormalizeSeparators(a), ','), SplitOn(NormalizeSeparators(b), ','));
  }

  lemma {:induction false} CleanTokensUnchanged(tokens: seq<string>)
    requires forall i :: 0 <= i < |tokens| ==> IsToken(tokens[i])
    ensures CleanPieces(tokens) == tokens
  {
    if tokens != [] {
      CleanTokensUnchanged(tokens[1..]);
      assert [tokens[0]] + tokens[1..] == tokens;
    }
  }

  lemma {:induction false} JoinChars(pieces: seq<string>, sep: char, c: char)
    requires c in JoinWith(pieces, sep)
    ensures c == sep || exists i :: 0 <= i < |pieces| && c in pieces[i]
  {
    if |pieces| > 1 {
      if c !in pieces[0] && c != sep {
        JoinChars(pieces[1..], sep, c);
        var i :| 0 <= i < |pieces[1..]| && c in pieces[1..][i];
        assert c in pieces[i + 1];
      }
    }
  }

  /** Round trip: tokens joined with commas split back into the same tokens. */
  lemma CommaJoinRoundTrip(tokens: seq<string>)
    requires forall i :: 0 <= i < |tokens| ==> IsToken(tokens[i])
    ensures SplitTokens(Some(JoinWith(tokens, ','))) == tokens
  {
    if tokens != [] {
      var s := JoinWith(tokens, ',');
      forall i | 0 <= i < |s| ensures !IsSeparator(s[i]) || s[i] == ',' {
        JoinChars(tokens, ',', s[i]);
      }
      assert NormalizeSeparators(s) == s;
      SplitTokensUniform(s);
      SplitJoin(tokens, ',');
      CleanTokensUnchanged(tokens);
    }
  }

  /** A stripped, separator-free string is one token on its own. */
  lemma SingleToken(s: string)
    requires IsToken(s)
    ensures SplitTokens(Some(s)) == [s]
  {
    assert NormalizeSeparators(s) == s;
    assert ',' !in s;
    SplitNoSeparator(s, ',');
    StripStripped(s);
    assert CleanPieces([s]) == [s] + CleanPieces([]);
  }

  /** Tokens written out with one separator character between neighbours. */
  function Interleave(tokens: seq<string>, seps: seq<char>): string
    requires |tokens| == |seps| + 1
    decreases seps
  {
    if seps == [] then tokens[0]
    else tokens[0] + [seps[0]] + Interleave(tokens[1..], seps[1..])
  }

  /**
    Every separator kind splits, and tokens keep their order: any tokens
    written out with any of the five separators between them (for example
    `"A,B、C|D/E"`) split back into exactly those tokens.
   */
  lemma {:induction false} SeparatedTokensSplit(tokens: seq<string>, seps: seq<char>)
    requires |tokens| == |seps| + 1
    requires forall i :: 0 <= i < |tokens| ==> IsToken(tokens[i])
    requires forall i :: 0 <= i < |seps| ==> IsSeparator(seps[i])
    ensures SplitTokens(Some(Interleave(tokens, seps))) == tokens
    decreases seps
  {
    if seps == [] {
      SingleToken(tokens[0]);
      assert tokens == [tokens[0]];
    } else {
      var rest := Interleave(tokens[1..], seps[1..]);
      assert SplitTokens(Some(rest)) == tokens[1..] by {
        SeparatedTokensSplit(tokens[1..], seps[1..]);
      }
      TokenBefore(tokens[0], seps[0], rest, tokens[1..]);
      assert [tokens[0]] + tokens[1..] == tokens;
    }
  }

  lemma TokenBefore(t: string, sep: char, rest: string, restTokens: seq<string>)
    requires IsToken(t) && IsSeparator(sep)
    requires SplitTokens(Some(rest)) == restTokens
    ensures SplitTokens(Some(t + [sep] + rest)) == [t] + restTokens
  {
    SingleToken(t);
    TokensInOrder(t, sep, rest);
  }
}
