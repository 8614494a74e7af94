/**
 * The string operations of JavaScript that the application relies on, over
 * `string` (a sequence of characters): `trim`, `split(/\s+/)`, `split(c)`,
 * `join`, `includes`, `startsWith`, `endsWith`, `substring(0, n)`,
 * `padStart`, the `||` fallback on strings and the `<` order on strings.
 */
module Text {
  import opened Wrappers

  /** The characters JavaScript's `trim` and the class `\s` treat as white space. */
  predicate IsSpace(c: char) {
    if c <= ' ' then c == ' ' || '\t' <= c <= '\r'
    else
      '\U{A0}' <= c &&
      (c == '\U{A0}' || c == '\U{1680}' || '\U{2000}' <= c <= '\U{200A}' || '\U{2028}' <= c <= '\U{2029}'
       || c == '\U{202F}' || c == '\U{205F}' || c == '\U{3000}' || c == '\U{FEFF}')
  }

  predicate NoSpace(s: string) {
    forall i :: 0 <= i < |s| ==> !IsSpace(s[i])
  }

  /** `s` has no white space at either end. */
  predicate Trimmed(s: string) {
    s == [] || (!IsSpace(s[0]) && !IsSpace(s[|s| - 1]))
  }

  function TrimStart(s: string): (r: string)
    ensures |r| <= |s| && r == s[|s| - |r|..]
    ensures r == [] || !IsSpace(r[0])
    ensures forall i :: 0 <= i < |s| - |r| ==> IsSpace(s[i])
  {
    if |s| > 0 && IsSpace(s[0]) then TrimStart(s[1..]) else s
  }

  function TrimEnd(s: string): (r: string)
    ensures |r| <= |s| && r == s[..|r|]
    ensures r == [] || !IsSpace(r[|r| - 1])
    ensures forall i :: |r| <= i < |s| ==> IsSpace(s[i])
  {
    if |s| > 0 && IsSpace(s[|s| - 1]) then TrimEnd(s[..|s| - 1]) else s
  }

  /** JavaScript's `s.trim()`. */
  function Trim(s: string): (r: string)
    ensures Trimmed(r)
    ensures |r| <= |s|
  {
    TrimEnd(TrimStart(s))
  }

  /** Length of the leading run of non-space characters: the index of the first space, or `|s|`. */
  function WordLength(s: string): (k: nat)
    ensures k <= |s|
    ensures forall i :: 0 <= i < k ==> !IsSpace(s[i])
    ensures k == |s| || IsSpace(s[k])
  {
    if s == [] || IsSpace(s[0]) then 0 else 1 + WordLength(s[1..])
  }

  /** Length of the leading run of space characters. */
  function SpaceRun(s: string): (k: nat)
    ensures k <= |s|
    ensures forall i :: 0 <= i < k ==> IsSpace(s[i])
    ensures k == |s| || !IsSpace(s[k])
  {
    if s != [] && IsSpace(s[0]) then 1 + SpaceRun(s[1..]) else 0
  }

  /** The maximal runs of non-space characters of `s`, in order (the reference notion of a token). */
  function Words(s: string): seq<string>
    decreases |s|
  {
    if s == [] then []
    else if IsSpace(s[0]) then Words(s[1..])
    else
      var k := WordLength(s);
      [s[..k]] + Words(s[k..])
  }

  /** JavaScript's `s.split(/\s+/)`: the pieces between maximal runs of white space, empty pieces included. */
  function SplitSpaces(s: string): (r: seq<string>)
    ensures |r| >= 1
    decreases |s|
  {
    var i := WordLength(s);
    if i == |s| then [s]
    else
      var j := i + SpaceRun(s[i..]);
      [s[..i]] + SplitSpaces(s[j..])
  }

  /** JavaScript's `parts.join(sep)`. */
  function Join(parts: seq<string>, sep: string): string {
    if parts == [] then ""
    else if |parts| == 1 then parts[0]
    else parts[0] + sep + Join(parts[1..], sep)
  }

  /** `s` with every maximal run of white space replaced by a single `' '`. */
  function Squeeze(s: string): string
    decreases |s|
  {
    if s == [] then []
    else if IsSpace(s[0]) then
      var k := SpaceRun(s);
      [' '] + Squeeze(s[k..])
    else [s[0]] + Squeeze(s[1..])
  }

  predicate StartsWith(s: string, prefix: string) {
    |prefix| <= |s| && s[..|prefix|] == prefix
  }

  predicate EndsWith(s: string, suffix: string) {
    |suffix| <= |s| && s[|s| - |suffix|..] == suffix
  }

  /** JavaScript's `s.includes(sub)`. */
  predicate Contains(s: string, sub: string)
    decreases |s|
  {
    StartsWith(s, sub) || (s != [] && Contains(s[1..], sub))
  }

  /** JavaScript's `s.split(c)[0]`: the part of `s` before the first `c`. */
  function BeforeFirst(s: string, c: char): (r: string)
    ensures |r| <= |s| && r == s[..|r|]
    ensures c !in r
    ensures |r| == |s| || s[|r|] == c
  {
    if s == [] || s[0] == c then [] else [s[0]] + BeforeFirst(s[1..], c)
  }

  /** JavaScript's `s.split(c)` for a one-character separator. */
  function SplitOn(s: string, c: char): (r: seq<string>)
    ensures |r| >= 1
    ensures r[0] == BeforeFirst(s, c)
    decreases |s|
  {
    var head := BeforeFirst(s, c);
    if |head| == |s| then [s] else [head] + SplitOn(s[|head| + 1..], c)
  }

  /** JavaScript's `s.substring(0, n)` for `n >= 0`. */
  function Take(s: string, n: nat): (r: string)
    ensures |r| == (if |s| <= n then |s| else n) && r == s[..|r|]
  {
    if |s| <= n then s else s[..n]
  }

  function Repeat(c: char, n: nat): (r: string)
    ensures |r| == n && forall i :: 0 <= i < n ==> r[i] == c
  {
    if n == 0 then [] else [c] + Repeat(c, n - 1)
  }

  /** JavaScript's `s.padStart(n, c)` with a one-character filler. */
  function PadStart(s: string, n: nat, c: char): (r: string)
    ensures |r| == if |s| >= n then |s| else n
    ensures EndsWith(r, s)
    ensures forall i :: 0 <= i < |r| - |s| ==> r[i] == c
  {
    if |s| >= n then s else Repeat(c, n - |s|) + s
  }

  /** JavaScript's `a < b` on strings: lexicographic order of the characters. */
  predicate LexLess(a: string, b: string)
    decreases |a|
  {
    if a == [] then b != []
    else if b == [] then false
    else if a[0] != b[0] then a[0] < b[0]
    else LexLess(a[1..], b[1..])
  }

  /** JavaScript's `s || null` on an optional string: the empty string is falsy. */
  function OrNull(s: Option<string>): (r: Option<string>)
    ensures r.Some? <==> s.Some? && s.value != ""
    ensures r.Some? ==> r == s
  {
    if s.Some? && s.value != "" then s else None
  }

  // ---------------------------------------------------------------------
  // Facts about tokens, trimming and splitting

  /** Every token is non-empty and free of white space. */
  lemma {:induction false} WordsAreTokens(s: string)
    ensures forall w :: w in Words(s) ==> w != [] && NoSpace(w)
    decreases |s|
  {
    if s == [] {
    } else if IsSpace(s[0]) {
      WordsAreTokens(s[1..]);
    } else {
      var k := WordLength(s);
      WordsAreTokens(s[k..]);
    }
  }

  /** Leading white space does not change the tokens. */
  lemma {:induction false} WordsSkipSpaces(s: string, k: nat)
    requires k <= |s|
    requires forall i :: 0 <= i < k ==> IsSpace(s[i])
    ensures Words(s) == Words(s[k..])
    decreases k
  {
    if k > 0 {
      assert s[1..][k - 1..] == s[k..];
      WordsSkipSpaces(s[1..], k - 1);
    }
  }

  lemma {:induction false} WordLengthAppendSpace(x: string, c: char)
    requires IsSpace(c)
    ensures WordLength(x + [c]) == WordLength(x)
    decreases |x|
  {
    if x != [] && !IsSpace(x[0]) {
      assert (x + [c])[1..] == x[1..] + [c];
      WordLengthAppendSpace(x[1..], c);
    }
  }

  /** Trailing white space does not change the tokens. */
  lemma {:induction false} WordsAppendSpace(x: string, c: char)
    requires IsSpace(c)
    ensures Words(x + [c]) == Words(x)
    decreases |x|
  {
    var y := x + [c];
    if x == [] {
      assert y[1..] == [];
    } else if IsSpace(x[0]) {
      assert y[1..] == x[1..] + [c];
      WordsAppendSpace(x[1..], c);
    } else {
      var k := WordLength(x);
      WordLengthAppendSpace(x, c);
      assert y[..k] == x[..k];
      assert y[k..] == x[k..] + [c];
      WordsAppendSpace(x[k..], c);
    }
  }

  lemma {:induction false} WordsTrimEnd(s: string)
    ensures Words(TrimEnd(s)) == Words(s)
    decreases |s|
  {
    if |s| > 0 && IsSpace(s[|s| - 1]) {
      var x := s[..|s| - 1];
      assert s == x + [s[|s| - 1]];
      WordsAppendSpace(x, s[|s| - 1]);
      WordsTrimEnd(x);
    }
  }

  /** Trimming does not change the tokens. */
  lemma WordsTrim(s: string)
    ensures Words(Trim(s)) == Words(s)
  {
    var t := TrimStart(s);
    WordsSkipSpaces(s, |s| - |t|);
    WordsTrimEnd(t);
  }

  /** The tokens of a string are empty exactly when the trimmed string is empty. */
  lemma NoWordsIffBlank(s: string)
    ensures Words(s) == [] <==> Trim(s) == []
  {
    WordsTrim(s);
    var t := Trim(s);
    if t != [] {
      var k := WordLength(t);
      assert k >= 1;
    }
  }

  /** A space run that starts before a non-space last character ends before it. */
  lemma SpaceRunBeforeEnd(s: string)
    requires s != [] && !IsSpace(s[|s| - 1])
    ensures SpaceRun(s) < |s|
  {
  }

  /** On a trimmed, non-empty string, `split(/\s+/)` yields exactly the tokens. */
  lemma {:induction false} SplitTrimmed(t: string)
    requires t != [] && Trimmed(t)
    ensures SplitSpaces(t) == Words(t)
    decreases |t|
  {
    var i := WordLength(t);
    WordsStep(t, i);
    if i < |t| {
      var j := GapAfterWord(t, i);
      SplitStep(t, i, j);
      SplitTrimmed(t[j..]);
    } else {
      assert t[..i] == t && t[i..] == [];
    }
  }

  /**
   * In a trimmed string, the white space after a word that is not the last
   * ends before the string does, and what follows it is trimmed again and has
   * the same tokens as the gap.
   */
  lemma GapAfterWord(t: string, i: nat) returns (j: nat)
    requires Trimmed(t) && i == WordLength(t) < |t|
    ensures j == i + SpaceRun(t[i..]) && j < |t|
    ensures Trimmed(t[j..]) && t[j..] != []
    ensures Words(t[i..]) == Words(t[j..])
  {
    var gap := t[i..];
    assert gap[|gap| - 1] == t[|t| - 1];
    SpaceRunBeforeEnd(gap);
    j := i + SpaceRun(gap);
    var rest := t[j..];
    assert rest[|rest| - 1] == t[|t| - 1];
    forall k | i <= k < j ensures IsSpace(t[k]) {
      assert t[k] == gap[k - i];
    }
    WordsSkipGap(t, i, j);
  }

  /** Tokenising from the start of a run of white space or from its end gives the same tokens. */
  lemma {:induction false} WordsSkipGap(t: string, i: nat, j: nat)
    requires i <= j <= |t|
    requires forall k :: i <= k < j ==> IsSpace(t[k])
    ensures Words(t[i..]) == Words(t[j..])
    decreases j - i
  {
    if i < j {
      assert t[i..][1..] == t[i + 1..];
      WordsSkipGap(t, i + 1, j);
    }
  }

  /** `split` takes the leading word, skips the run of white space after it and splits what is left. */
  lemma SplitStep(t: string, i: nat, j: nat)
    requires i == WordLength(t) < |t| && j == i + SpaceRun(t[i..])
    ensures SplitSpaces(t) == [t[..i]] + SplitSpaces(t[j..])
  {
  }

  /** A string that starts with a word has that word as its first token. */
  lemma WordsStep(t: string, i: nat)
    requires t != [] && !IsSpace(t[0]) && i == WordLength(t)
    ensures Words(t) == [t[..i]] + Words(t[i..])
  {
  }

  /** `trim().split(/\s+/)`: the tokens, or a single empty piece for a blank string. */
  lemma SplitOfTrim(s: string)
    ensures SplitSpaces(Trim(s)) == if Words(s) == [] then [""] else Words(s)
  {
    WordsTrim(s);
    NoWordsIffBlank(s);
    if Trim(s) != [] {
      SplitTrimmed(Trim(s));
    }
  }

  lemma {:induction false} WordLengthToken(w: string, rest: string)
    requires NoSpace(w)
    requires rest == [] || IsSpace(rest[0])
    ensures WordLength(w + rest) == |w|
    decreases |w|
  {
    if w == [] {
      assert w + rest == rest;
    } else {
      assert (w + rest)[1..] == w[1..] + rest;
      WordLengthToken(w[1..], rest);
    }
  }

  /** A token followed by white space (or nothing) is the first token. */
  lemma WordsCons(w: string, rest: string)
    requires w != [] && NoSpace(w)
    requires rest == [] || IsSpace(rest[0])
    ensures Words(w + rest) == [w] + Words(rest)
  {
    WordLengthToken(w, rest);
    var s := w + rest;
    assert s[..|w|] == w && s[|w|..] == rest;
  }

  /** Joining tokens with single spaces and splitting again gives the tokens back. */
  lemma {:induction false} WordsOfJoin(ws: seq<string>)
    requires forall i :: 0 <= i < |ws| ==> ws[i] != [] && NoSpace(ws[i])
    ensures Words(Join(ws, " ")) == ws
    decreases |ws|
  {
    if |ws| == 1 {
      WordsCons(ws[0], []);
      assert ws[0] + [] == ws[0];
    } else if |ws| > 1 {
      var tail := Join(ws[1..], " ");
      WordsOfJoin(ws[1..]);
      assert ws[0] + " " + tail == ws[0] + ([' '] + tail);
      WordsCons(ws[0], [' '] + tail);
      assert ([' '] + tail)[1..] == tail;
    }
  }

  /** A join is the first part, then the separator and the join of the rest when there is more. */
  lemma JoinHeadTail(parts: seq<string>, sep: string)
    requires parts != []
    ensures Join(parts, sep) == parts[0] + (if |parts| == 1 then "" else sep + Join(parts[1..], sep))
  {
  }

  lemma {:induction false} JoinNonEmpty(parts: seq<string>, sep: string)
    requires parts != [] && parts[0] != []
    ensures Join(parts, sep) != []
  {
  }

  lemma {:induction false} SqueezeWordPrefix(w: string, rest: string)
    requires NoSpace(w)
    ensures Squeeze(w + rest) == w + Squeeze(rest)
    decreases |w|
  {
    if w != [] {
      assert (w + rest)[0] == w[0];
      assert (w + rest)[1..] == w[1..] + rest;
      SqueezeWordPrefix(w[1..], rest);
      assert w == [w[0]] + w[1..];
    } else {
      assert w + rest == rest;
    }
  }

  /** On a trimmed string, collapsing white space runs is the same as joining the tokens with single spaces. */
  lemma {:induction false} SqueezeIsJoinedWords(t: string)
    requires Trimmed(t)
    ensures Squeeze(t) == Join(Words(t), " ")
    decreases |t|
  {
    if t != [] {
      var k := WordLength(t);
      var w := t[..k];
      assert t == w + t[k..];
      SqueezeWordPrefix(w, t[k..]);
      WordsStep(t, k);
      if k == |t| {
        assert t[k..] == [];
      } else {
        var j := GapAfterWord(t, k);
        var tail := t[j..];
        SqueezeGap(t, k, j);
        SqueezeIsJoinedWords(tail);
        WordsStep(tail, WordLength(tail));
        JoinHeadTail([w] + Words(tail), " ");
        assert ([w] + Words(tail))[1..] == Words(tail);
      }
    }
  }

  /** A run of white space squeezes to one space in front of what follows it. */
  lemma SqueezeGap(t: string, k: nat, j: nat)
    requires k < |t| && IsSpace(t[k]) && j == k + SpaceRun(t[k..])
    ensures Squeeze(t[k..]) == " " + Squeeze(t[j..])
  {
    assert t[k..][j - k..] == t[j..];
  }

  /** A string without the separator splits into itself alone. */
  lemma SplitOnAbsent(s: string, c: char)
    requires c !in s
    ensures SplitOn(s, c) == [s]
  {
  }

  /** `s.trim()` is empty exactly when every character of `s` is white space. */
  lemma TrimEmptyIffBlank(s: string)
    ensures Trim(s) == [] <==> forall i :: 0 <= i < |s| ==> IsSpace(s[i])
  {
    var t := TrimStart(s);
    if t != [] {
      assert !IsSpace(t[0]) && t[0] == s[|s| - |t|];
    }
  }

  /** `s.trim()` is a slice of `s`, so it keeps out any character `s` lacks. */
  lemma TrimIsSlice(s: string, c: char)
    requires c !in s
    ensures c !in Trim(s)
  {
    var t := TrimStart(s);
    assert t == s[|s| - |t|..];
    assert Trim(s) == t[..|Trim(s)|];
  }

  /** Trimming twice is trimming once. */
  lemma TrimIdempotent(s: string)
    ensures Trim(Trim(s)) == Trim(s)
  {
    var r := Trim(s);
    assert TrimStart(r) == r;
  }
}
