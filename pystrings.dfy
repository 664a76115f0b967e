/** The Python string built-ins the data preparation relies on, on `string`
    (a sequence of code points): substring search and `in`, `str.split(sep)`,
    `sep.join`, whitespace `str.split()`, `''.join`, single-character
    `str.replace`, and `str(int)`. */
module PyStrings {
  import opened Wrappers

  /** `pat` occurs in `s` starting at position `i`. */
  predicate OccursAt(s: string, pat: string, i: nat)
  {
    i + |pat| <= |s| && s[i..i + |pat|] == pat
  }

  lemma OccursShift(s: string, pat: string, j: nat)
    requires |s| > 0
    ensures OccursAt(s, pat, j + 1) == OccursAt(s[1..], pat, j)
  {
    if j + 1 + |pat| <= |s| {
      assert s[j + 1..j + 1 + |pat|] == s[1..][j..j + |pat|];
    }
  }

  /** The substring search behind `pat in s` and `s.split(pat)`: the first
      position where `pat` occurs, if any. */
  function IndexOf(s: string, pat: string): (r: Option<nat>)
    ensures r.Some? ==> r.value + |pat| <= |s|
    decreases |s|
  {
    if |s| < |pat| then None
    else if s[..|pat|] == pat then Some(0)
    else
      match IndexOf(s[1..], pat)
      case None => None
      case Some(i) => Some(i + 1)
  }

  /** The search reports an occurrence, the first one, and reports none
      exactly when there is none. */
  lemma {:induction false} IndexOfIsFirst(s: string, pat: string)
    ensures var r := IndexOf(s, pat);
      (r.Some? ==> OccursAt(s, pat, r.value)) &&
      (r.Some? ==> forall j: nat :: j < r.value ==> !OccursAt(s, pat, j)) &&
      (r.None? ==> forall j: nat :: !OccursAt(s, pat, j))
    decreases |s|
  {
    if |s| < |pat| {
      assert IndexOf(s, pat) == None;
      assert forall j: nat :: !OccursAt(s, pat, j);
    } else if s[..|pat|] == pat {
      assert IndexOf(s, pat) == Some(0);
      assert s[0..|pat|] == s[..|pat|];
      assert OccursAt(s, pat, 0);
    } else {
      var r1 := IndexOf(s[1..], pat);
      assert IndexOf(s, pat) == if r1.Some? then Some(r1.value + 1) else None;
      IndexOfIsFirst(s[1..], pat);
      assert !OccursAt(s, pat, 0) by {
        assert s[0..|pat|] == s[..|pat|];
      }
      forall j: nat | 0 < j ensures OccursAt(s, pat, j) == OccursAt(s[1..], pat, j - 1) {
        OccursShift(s, pat, j - 1);
      }
    }
  }

  /** Python's `pat in s`. */
  predicate Contains(s: string, pat: string)
  {
    IndexOf(s, pat).Some?
  }

  lemma ContainsChar(s: string, c: char)
    ensures Contains(s, [c]) <==> c in s
  {
    IndexOfIsFirst(s, [c]);
    if c in s {
      var i :| 0 <= i < |s| && s[i] == c;
      assert OccursAt(s, [c], i);
    }
    if Contains(s, [c]) {
      var i := IndexOf(s, [c]).value;
      assert s[i..i + 1] == [c];
      assert s[i] == c;
    }
  }

  /** An occurrence inside a prefix is an occurrence in the whole string. */
  lemma OccursInPrefix(s: string, pat: string, n: nat, j: nat)
    requires n <= |s|
    requires OccursAt(s[..n], pat, j)
    ensures OccursAt(s, pat, j) && j + |pat| <= n
  {
    assert s[..n][j..j + |pat|] == s[j..j + |pat|];
  }

  /** `s.split(sep)` for a non-empty separator: the pieces between
      successive, non-overlapping, left-to-right occurrences of `sep`. */
  function Split(s: string, sep: string): (r: seq<string>)
    requires |sep| > 0
    ensures |r| >= 1
    decreases |s|
  {
    match IndexOf(s, sep)
    case None => [s]
    case Some(i) => [s[..i]] + Split(s[i + |sep|..], sep)
  }

  /** There is more than one piece exactly when the separator occurs. */
  lemma SplitCount(s: string, sep: string)
    requires |sep| > 0
    ensures |Split(s, sep)| >= 2 <==> Contains(s, sep)
  {
  }

  /** The text before the first occurrence holds no occurrence. */
  lemma BeforeFirst(s: string, sep: string, i: nat)
    requires |sep| > 0
    requires IndexOf(s, sep) == Some(i)
    ensures i + |sep| <= |s| && OccursAt(s, sep, i)
    ensures !Contains(s[..i], sep)
  {
    IndexOfIsFirst(s, sep);
    if Contains(s[..i], sep) {
      var j := IndexOf(s[..i], sep).value;
      IndexOfIsFirst(s[..i], sep);
      OccursInPrefix(s, sep, i, j);
    }
  }

  /** No piece of a split contains the separator, and there is more than
      one piece exactly when the separator occurs. */
  lemma {:induction false} SplitPieces(s: string, sep: string)
    requires |sep| > 0
    ensures var r := Split(s, sep);
      (forall k :: 0 <= k < |r| ==> !Contains(r[k], sep)) &&
      (|r| == 1 <==> !Contains(s, sep))
    decreases |s|
  {
    match IndexOf(s, sep)
    case None =>
      assert Split(s, sep) == [s];
    case Some(i) =>
      BeforeFirst(s, sep, i);
      var rest := s[i + |sep|..];
      var tail := Split(rest, sep);
      SplitPieces(rest, sep);
      var r := [s[..i]] + tail;
      assert Split(s, sep) == r;
      forall k | 0 <= k < |r| ensures !Contains(r[k], sep) {
        if k > 0 {
          assert r[k] == tail[k - 1];
        }
      }
  }

  /** `sep.join(pieces)` for a non-empty list of pieces. */
  function Join(pieces: seq<string>, sep: string): string
    requires |pieces| >= 1
  {
    if |pieces| == 1 then pieces[0] else pieces[0] + sep + Join(pieces[1..], sep)
  }

  lemma JoinCons(head: string, tail: seq<string>, sep: string)
    requires |tail| >= 1
    ensures Join([head] + tail, sep) == head + sep + Join(tail, sep)
  {
    assert ([head] + tail)[1..] == tail;
  }

  /** An occurrence cuts the string into what precedes it, the pattern and
      what follows it. */
  lemma CutAt(s: string, pat: string, i: nat)
    requires OccursAt(s, pat, i)
    ensures s == s[..i] + pat + s[i + |pat|..]
  {
    assert s == s[..i] + s[i..i + |pat|] + s[i + |pat|..];
  }

  /** Splitting and joining back with the same separator gives the input. */
  lemma {:induction false} JoinSplit(s: string, sep: string)
    requires |sep| > 0
    ensures Join(Split(s, sep), sep) == s
    decreases |s|
  {
    var r := IndexOf(s, sep);
    if r.Some? {
      var i := r.value;
      BeforeFirst(s, sep, i);
      var rest := s[i + |sep|..];
      var tail := Split(rest, sep);
      assert Split(s, sep) == [s[..i]] + tail;
      JoinSplit(rest, sep);
      JoinCons(s[..i], tail, sep);
      CutAt(s, sep, i);
    }
  }

  /** The first piece of a split is the text before the first occurrence. */
  lemma SplitFirst(s: string, sep: string)
    requires |sep| > 0
    ensures var p := Split(s, sep)[0];
      !Contains(p, sep) && (s == p || (|p| + |sep| <= |s| && s[..|p| + |sep|] == p + sep))
  {
    SplitPieces(s, sep);
    match IndexOf(s, sep)
    case None =>
    case Some(i) =>
      BeforeFirst(s, sep, i);
      assert Split(s, sep)[0] == s[..i];
      assert s[..i + |sep|] == s[..i] + s[i..i + |sep|];
  }

  /** An occurrence in a suffix is an occurrence in the whole string,
      shifted by where the suffix starts. */
  lemma OccursInSuffix(s: string, pat: string, b: nat, k: nat)
    requires b <= |s|
    ensures OccursAt(s[b..], pat, k) == OccursAt(s, pat, b + k)
  {
    if b + k + |pat| <= |s| {
      assert s[b..][k..k + |pat|] == s[b + k..b + k + |pat|];
    }
  }

  /** `s` is `first`, `sep`, `second` and a rest. `first` ends at the first
      occurrence of `sep`; `second` starts right after it and ends where
      the next occurrence starting there or later begins, or at the end of
      `s`. No occurrence starts inside either piece, overlapping ones
      included. */
  predicate FirstTwoPieces(s: string, sep: string, first: string, second: string)
  {
    var b := |first| + |sep|;
    var e := b + |second|;
    e <= |s| && s == first + sep + second + s[e..] &&
    (forall j: nat :: j < |first| ==> !OccursAt(s, sep, j)) &&
    (forall j: nat :: b <= j < e ==> !OccursAt(s, sep, j)) &&
    (e == |s| || OccursAt(s, sep, e))
  }

  /** The predicate leaves no choice: the first two pieces are fixed by
      `s` and `sep`, overlapping occurrences included. */
  lemma FirstTwoPiecesUnique(s: string, sep: string, p: string, q: string, p2: string, q2: string)
    requires FirstTwoPieces(s, sep, p, q) && FirstTwoPieces(s, sep, p2, q2)
    ensures p == p2 && q == q2
  {
    var b, b2 := |p| + |sep|, |p2| + |sep|;
    var e, e2 := b + |q|, b2 + |q2|;
    PiecesAt(s, sep, p, q);
    PiecesAt(s, sep, p2, q2);
  }

  /** The pieces are the slices of `s` at the positions they imply, and the
      first one is followed by an occurrence. */
  lemma PiecesAt(s: string, sep: string, p: string, q: string)
    requires FirstTwoPieces(s, sep, p, q)
    ensures OccursAt(s, sep, |p|)
    ensures p == s[..|p|] && q == s[|p| + |sep|..|p| + |sep| + |q|]
  {
    var b := |p| + |sep|;
    var e := b + |q|;
    var t := s[e..];
    assert s == p + sep + q + t;
    assert s[..|p|] == p;
    assert s[|p|..b] == sep;
    assert s[b..e] == q;
  }

  /** When `sep` occurs, the first two pieces of the split are the text
      before its first occurrence and the text from there to the next. */
  lemma {:induction false} SplitSecond(s: string, sep: string)
    requires |sep| > 0 && Contains(s, sep)
    ensures var ps := Split(s, sep);
      |ps| >= 2 && FirstTwoPieces(s, sep, ps[0], ps[1])
  {
    var i := FirstCut(s, sep);
    var b := i + |sep|;
    var e := NextCut(s, sep, b);
    CutsMakePieces(s, sep, i, e);
    var ps := Split(s, sep);
    assert ps == [s[..i]] + Split(s[b..], sep);
    assert ps[0] == s[..i] && ps[1] == s[b..e];
  }

  /** The first occurrence and the next cut delimit the first two pieces. */
  lemma CutsMakePieces(s: string, sep: string, i: nat, e: nat)
    requires OccursAt(s, sep, i) && i + |sep| <= e <= |s|
    requires forall j: nat :: j < i ==> !OccursAt(s, sep, j)
    requires forall j: nat :: i + |sep| <= j < e ==> !OccursAt(s, sep, j)
    requires e == |s| || OccursAt(s, sep, e)
    ensures FirstTwoPieces(s, sep, s[..i], s[i + |sep|..e])
  {
    CutThree(s, sep, i, e);
    assert |s[..i]| == i && |s[i + |sep|..e]| == e - (i + |sep|);
  }

  /** Where the first piece ends: the first occurrence. */
  lemma FirstCut(s: string, sep: string) returns (i: nat)
    requires Contains(s, sep)
    ensures IndexOf(s, sep) == Some(i) && OccursAt(s, sep, i)
    ensures forall j: nat :: j < i ==> !OccursAt(s, sep, j)
  {
    i := IndexOf(s, sep).value;
    IndexOfIsFirst(s, sep);
  }

  /** An occurrence at `i` and a later cut at `e` split `s` into four
      consecutive parts. */
  lemma CutThree(s: string, sep: string, i: nat, e: nat)
    requires OccursAt(s, sep, i) && i + |sep| <= e <= |s|
    ensures s == s[..i] + sep + s[i + |sep|..e] + s[e..]
  {
    CutAt(s, sep, i);
    assert s[i + |sep|..] == s[i + |sep|..e] + s[e..];
  }

  /** Where the second piece ends: the first occurrence starting at `b` or
      later, or the end of the string, and the piece is the text up to it. */
  lemma NextCut(s: string, sep: string, b: nat) returns (e: nat)
    requires |sep| > 0 && b <= |s|
    ensures b <= e <= |s| && Split(s[b..], sep)[0] == s[b..e]
    ensures forall j: nat :: b <= j < e ==> !OccursAt(s, sep, j)
    ensures e == |s| || OccursAt(s, sep, e)
  {
    var rest := s[b..];
    IndexOfIsFirst(rest, sep);
    match IndexOf(rest, sep)
    case None =>
      e := |s|;
      assert rest == s[b..e];
      forall j: nat | b <= j < e ensures !OccursAt(s, sep, j) {
        OccursInSuffix(s, sep, b, j - b);
      }
    case Some(m) =>
      e := b + m;
      assert rest[..m] == s[b..e];
      forall j: nat | b <= j < e ensures !OccursAt(s, sep, j) {
        OccursInSuffix(s, sep, b, j - b);
      }
      OccursInSuffix(s, sep, b, m);
  }

  /** With a one-character separator that occurs in neither part, splitting
      `a + sep + b` gives back exactly `[a, b]`. */
  lemma SplitTwo(a: string, b: string, c: char)
    requires c !in a && c !in b
    ensures Split(a + [c] + b, [c]) == [a, b]
  {
    var s := a + [c] + b;
    ContainsChar(a, c);
    ContainsChar(b, c);
    assert OccursAt(s, [c], |a|);
    forall j: nat | j < |a| ensures !OccursAt(s, [c], j) {
      assert s[j..j + 1] == [a[j]];
    }
    IndexOfIsFirst(s, [c]);
    assert IndexOf(s, [c]) == Some(|a|);
    assert s[|a| + 1..] == b;
    assert s[..|a|] == a;
  }

  /** The last `sep`-separated field of `s`, as in `s.split(sep)[-1]`. */
  function LastField(s: string, sep: string): string
    requires |sep| > 0
  {
    var fields := Split(s, sep);
    fields[|fields| - 1]
  }

  lemma {:induction false} JoinLast(pieces: seq<string>, sep: string)
    requires |pieces| >= 2
    ensures Join(pieces, sep) ==
      Join(pieces[..|pieces| - 1], sep) + sep + pieces[|pieces| - 1]
    decreases |pieces|
  {
    if |pieces| > 2 {
      JoinLast(pieces[1..], sep);
      assert pieces[1..][..|pieces| - 2] == pieces[..|pieces| - 1][1..];
    }
  }

  /** `s.split(sep)[-1]` is the suffix of `s` after the last occurrence of
      `sep` (all of `s` when there is none), and holds no occurrence. */
  lemma LastFieldIsSuffix(s: string, sep: string)
    requires |sep| > 0
    ensures var f := LastField(s, sep);
      !Contains(f, sep) && |f| <= |s| && s[|s| - |f|..] == f &&
      (|f| < |s| ==> |f| + |sep| <= |s| && s[|s| - |f| - |sep|..|s| - |f|] == sep)
  {
    var ps := Split(s, sep);
    JoinSplit(s, sep);
    SplitPieces(s, sep);
    if |ps| >= 2 {
      JoinLast(ps, sep);
      var head := Join(ps[..|ps| - 1], sep);
      var f := ps[|ps| - 1];
      assert s == head + sep + f;
      assert s[|s| - |f|..] == f;
      assert s[|s| - |f| - |sep|..|s| - |f|] == sep;
    }
  }

  /** Python's `str.isspace()` for one character: the characters that
      `str.split()` with no argument treats as separators. */
  predicate IsSpace(c: char)
  {
    ('\t' <= c <= '\r') || ('\U{1C}' <= c <= '\U{1F}') || c == ' ' ||
    c == '\U{85}' || c == '\U{A0}' || c == '\U{1680}' ||
    ('\U{2000}' <= c <= '\U{200A}') || c == '\U{2028}' || c == '\U{2029}' ||
    c == '\U{202F}' || c == '\U{205F}' || c == '\U{3000}'
  }

  predicate HasNoSpace(s: string)
  {
    forall i :: 0 <= i < |s| ==> !IsSpace(s[i])
  }

  /** Length of the leading run of non-whitespace characters. */
  function WordLength(s: string): (n: nat)
    ensures n <= |s|
    ensures forall i :: 0 <= i < n ==> !IsSpace(s[i])
    ensures n == |s| || IsSpace(s[n])
    decreases |s|
  {
    if s == [] || IsSpace(s[0]) then 0 else 1 + WordLength(s[1..])
  }

  /** `s.split()`: the maximal runs of non-whitespace characters, in order. */
  function Tokens(s: string): (r: seq<string>)
    ensures forall k :: 0 <= k < |r| ==> |r[k]| > 0 && HasNoSpace(r[k])
    decreases |s|
  {
    if s == [] then []
    else if IsSpace(s[0]) then Tokens(s[1..])
    else
      var n := WordLength(s);
      [s[..n]] + Tokens(s[n..])
  }

  /** `''.join(words)`. */
  function Concat(words: seq<string>): string
  {
    if words == [] then [] else words[0] + Concat(words[1..])
  }

  /** The characters of `s` that are not whitespace, in order. */
  function RemoveSpaces(s: string): string
  {
    if s == [] then [] else (if IsSpace(s[0]) then [] else [s[0]]) + RemoveSpaces(s[1..])
  }

  lemma {:induction false} RemoveSpacesAppend(a: string, b: string)
    ensures RemoveSpaces(a + b) == RemoveSpaces(a) + RemoveSpaces(b)
    decreases |a|
  {
    if a == [] {
      assert a + b == b;
    } else {
      assert (a + b)[0] == a[0];
      assert (a + b)[1..] == a[1..] + b;
      RemoveSpacesAppend(a[1..], b);
      var h: string := if IsSpace(a[0]) then [] else [a[0]];
      calc {
        RemoveSpaces(a + b);
        h + RemoveSpaces(a[1..] + b);
        h + (RemoveSpaces(a[1..]) + RemoveSpaces(b));
        (h + RemoveSpaces(a[1..])) + RemoveSpaces(b);
        RemoveSpaces(a) + RemoveSpaces(b);
      }
    }
  }

  lemma {:induction false} RemoveSpacesOfWord(w: string)
    requires HasNoSpace(w)
    ensures RemoveSpaces(w) == w
    decreases |w|
  {
    if w != [] {
      RemoveSpacesOfWord(w[1..]);
    }
  }

  /** Tokenising loses exactly the whitespace: joining the tokens with no
      separator gives the input with its whitespace removed. */
  lemma {:induction false} ConcatTokens(s: string)
    ensures Concat(Tokens(s)) == RemoveSpaces(s)
    decreases |s|
  {
    if s == [] {
    } else if IsSpace(s[0]) {
      ConcatTokens(s[1..]);
    } else {
      var n := WordLength(s);
      ConcatTokens(s[n..]);
      assert s == s[..n] + s[n..];
      RemoveSpacesAppend(s[..n], s[n..]);
      RemoveSpacesOfWord(s[..n]);
      assert ([s[..n]] + Tokens(s[n..]))[1..] == Tokens(s[n..]);
    }
  }

  /** The three facts `WordLength` ensures leave it no other value. */
  lemma WordLengthUnique(s: string, n: nat)
    requires n <= |s| && (forall i :: 0 <= i < n ==> !IsSpace(s[i]))
    requires n == |s| || IsSpace(s[n])
    ensures WordLength(s) == n
  {
    var m := WordLength(s);
  }

  /** Leading whitespace produces no token. */
  lemma TokensSkipSpace(s: string)
    requires s != [] && IsSpace(s[0])
    ensures Tokens(s) == Tokens(s[1..])
  {
  }

  /** A leading word of length `n` is the first token. */
  lemma TokensTakeWord(s: string, n: nat)
    requires s != [] && !IsSpace(s[0]) && n <= |s|
    requires (forall i :: 0 <= i < n ==> !IsSpace(s[i])) && (n == |s| || IsSpace(s[n]))
    ensures Tokens(s) == [s[..n]] + Tokens(s[n..])
  {
    WordLengthUnique(s, n);
  }

  lemma AppendAssoc<T>(x: seq<T>, y: seq<T>, z: seq<T>)
    ensures x + (y + z) == (x + y) + z
  {
  }

  /** A non-empty run without whitespace is a single token: the tokenizer
      does not cut inside a word. */
  lemma TokensOfWord(t: string)
    requires t != [] && HasNoSpace(t)
    ensures Tokens(t) == [t]
  {
    TokensTakeWord(t, |t|);
    var e: string := [];
    assert t[|t|..] == e && t[..|t|] == t;
  }

  /** A whitespace character separates: the tokens of the whole are the
      tokens on its left followed by the tokens on its right. With
      `TokensOfWord` this fixes `Tokens` on every input, so the tokens are
      exactly the maximal non-whitespace runs. */
  lemma {:induction false} TokensAtSpace(a: string, w: char, b: string)
    requires IsSpace(w)
    ensures Tokens(a + [w] + b) == Tokens(a) + Tokens(b)
    decreases |a|
  {
    var s := a + [w] + b;
    if a == [] {
      assert s[0] == w && s[1..] == b;
      TokensSkipSpace(s);
      assert Tokens(a) == [];
    } else if IsSpace(a[0]) {
      assert s[0] == a[0] && s[1..] == a[1..] + [w] + b;
      TokensSkipSpace(s);
      TokensSkipSpace(a);
      TokensAtSpace(a[1..], w, b);
    } else {
      var m := WordLength(a);
      var rest := a[m..];
      assert s[0] == a[0] && s[..m] == a[..m] && s[m..] == rest + [w] + b;
      assert m == |a| || s[m] == a[m];
      assert m < |a| || s[m] == w;
      TokensTakeWord(s, m);
      TokensTakeWord(a, m);
      if m < |a| {
        TokensAtSpace(rest, w, b);
      } else {
        var e: string := [];
        assert rest == e && rest + [w] + b == [w] + b;
        TokensAtSpace(rest, w, b);
      }
      var head, tr, tb := [a[..m]], Tokens(rest), Tokens(b);
      assert Tokens(s) == head + (tr + tb) && Tokens(a) == head + tr;
      AppendAssoc(head, tr, tb);
    }
  }

  /** Joining whitespace-free words gives a whitespace-free string. */
  lemma {:induction false} ConcatHasNoSpace(words: seq<string>)
    requires forall k :: 0 <= k < |words| ==> HasNoSpace(words[k])
    ensures HasNoSpace(Concat(words))
    decreases |words|
  {
    if words != [] {
      ConcatHasNoSpace(words[1..]);
      var rest := Concat(words[1..]);
      assert Concat(words) == words[0] + rest;
      forall i | 0 <= i < |words[0] + rest| ensures !IsSpace((words[0] + rest)[i]) {
        if i >= |words[0]| {
          assert (words[0] + rest)[i] == rest[i - |words[0]|];
        }
      }
    }
  }

  /** `s.replace(from, to)` for single characters. */
  function ReplaceChar(s: string, from: char, to: char): (r: string)
    ensures |r| == |s|
    ensures forall i :: 0 <= i < |s| ==> r[i] == (if s[i] == from then to else s[i])
    decreases |s|
  {
    if s == [] then []
    else [if s[0] == from then to else s[0]] + ReplaceChar(s[1..], from, to)
  }

  function DigitChar(d: nat): char
    requires d < 10
  {
    "0123456789"[d]
  }

  function DigitValue(c: char): nat
  {
    if '0' <= c <= '9' then (c as int - '0' as int) else 0
  }

  /** Python's `str(n)` for a natural number: decimal digits, no padding. */
  function NatToString(n: nat): string
    decreases n
  {
    if n < 10 then [DigitChar(n)] else NatToString(n / 10) + [DigitChar(n % 10)]
  }

  /** Python's `str(i)` for any integer. */
  function IntToString(i: int): string
  {
    if i < 0 then "-" + NatToString(-i) else NatToString(i)
  }

  /** Reads a string of decimal digits back into a number. */
  function ParseDigits(s: string): nat
  {
    if s == [] then 0 else ParseDigits(s[..|s| - 1]) * 10 + DigitValue(s[|s| - 1])
  }

  /** `str(n)` loses no information: its digits read back as `n`. */
  lemma {:induction false} NatToStringRoundTrip(n: nat)
    ensures ParseDigits(NatToString(n)) == n
    decreases n
  {
    var s := NatToString(n);
    if n < 10 {
      assert s[..0] == [];
    } else {
      NatToStringRoundTrip(n / 10);
      assert s[..|s| - 1] == NatToString(n / 10);
    }
  }
}
