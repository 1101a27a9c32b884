/** String helpers of the runner: trim, split on a delimiter (std::getline
    semantics) and split on whitespace (operator>> semantics). */
module Utils {

  /** The characters trim strips and operator>> skips: space, tab, newline,
      carriage return, form feed and vertical tab. */
  predicate IsSpace(c: char) {
    c == ' ' || c == '\t' || c == '\n' || c == '\r' || c == '\U{000C}' || c == '\U{000B}'
  }

  predicate AllSpace(s: string) {
    forall i :: 0 <= i < |s| ==> IsSpace(s[i])
  }

  predicate NoSpace(s: string) {
    forall i :: 0 <= i < |s| ==> !IsSpace(s[i])
  }

  /** Neither the first nor the last character of `s` is whitespace. */
  predicate NoEdgeSpace(s: string) {
    s == [] || (!IsSpace(s[0]) && !IsSpace(s[|s| - 1]))
  }

  // ---------------------------------------------------------------- sequence algebra

  lemma AppendAssoc<T>(a: seq<T>, b: seq<T>, c: seq<T>)
    ensures a + b + c == a + (b + c)
  {
  }

  lemma AppendEmpty<T>(a: seq<T>)
    ensures a + [] == a && [] + a == a
  {
  }

  lemma AppendCancel<T>(p: seq<T>, a: seq<T>, b: seq<T>)
    requires p + a == p + b
    ensures a == b
  {
    assert a == (p + a)[|p|..];
    assert b == (p + b)[|p|..];
  }

  /** Index of the first element that satisfies `p`, or |xs| when none does. */
  function FirstIndex<T>(xs: seq<T>, p: T -> bool): (k: nat)
    ensures k <= |xs|
  {
    if xs == [] || p(xs[0]) then 0 else 1 + FirstIndex(xs[1..], p)
  }

  /** FirstIndex finds the first match: none before it, a match at it. */
  lemma {:induction false} FirstIndexSpec<T>(xs: seq<T>, p: T -> bool)
    ensures var k := FirstIndex(xs, p);
      (forall j :: 0 <= j < k ==> !p(xs[j])) && (k < |xs| ==> p(xs[k]))
    decreases |xs|
  {
    if xs != [] && !p(xs[0]) {
      FirstIndexSpec(xs[1..], p);
      assert forall j :: 0 < j < |xs| ==> xs[1..][j - 1] == xs[j];
    }
  }

  /** A match with no match before it is the one FirstIndex finds. */
  lemma FirstIndexAt<T>(xs: seq<T>, p: T -> bool, i: nat)
    requires i < |xs| && p(xs[i]) && forall j :: 0 <= j < i ==> !p(xs[j])
    ensures FirstIndex(xs, p) == i
  {
    FirstIndexSpec(xs, p);
  }

  // ---------------------------------------------------------------- trim

  /** find_first_not_of(whitespace), with |s| standing for npos. */
  function FindFirstNotSpace(s: string): (k: nat)
    ensures k <= |s|
    ensures forall i :: 0 <= i < k ==> IsSpace(s[i])
    ensures k < |s| ==> !IsSpace(s[k])
  {
    if s == [] || !IsSpace(s[0]) then 0 else 1 + FindFirstNotSpace(s[1..])
  }

  /** find_last_not_of(whitespace), with -1 standing for npos. */
  function FindLastNotSpace(s: string): (k: int)
    ensures -1 <= k < |s|
    ensures forall i :: k < i < |s| ==> IsSpace(s[i])
    ensures k >= 0 ==> !IsSpace(s[k])
  {
    if s == [] || !IsSpace(s[|s| - 1]) then |s| - 1 else FindLastNotSpace(s[..|s| - 1])
  }

  /** utils::trim: the text between the first and the last non-whitespace
      character, or "" when there is none. */
  function Trim(s: string): (r: string)
    ensures NoEdgeSpace(r)
    ensures r == [] <==> AllSpace(s)
    ensures |r| <= |s|
  {
    var start := FindFirstNotSpace(s);
    if start == |s| then ""
    else
      var end := FindLastNotSpace(s);
      s[start..end + 1]
  }

  /** `r` is what remains of `s` once whitespace is cut from both ends:
      s = lead + r + trail with lead and trail all whitespace and r without
      whitespace at its edges. */
  ghost predicate IsTrimOf(r: string, s: string) {
    exists i, j :: 0 <= i <= j <= |s| && s[i..j] == r && AllSpace(s[..i]) && AllSpace(s[j..]) && NoEdgeSpace(r)
  }

  /** Trim returns a contiguous slice of its input with only whitespace cut away. */
  lemma TrimIsSlice(s: string)
    ensures IsTrimOf(Trim(s), s)
  {
    var start := FindFirstNotSpace(s);
    if start == |s| {
      assert s[start..start] == Trim(s);
    } else {
      var end := FindLastNotSpace(s);
      assert s[start..end + 1] == Trim(s);
    }
  }

  /** Trim cuts exactly the whitespace before i and from j on. */
  lemma TrimBetween(s: string, i: nat, j: nat)
    requires i <= j <= |s|
    requires forall k :: 0 <= k < i ==> IsSpace(s[k])
    requires forall k :: j <= k < |s| ==> IsSpace(s[k])
    requires i < j ==> !IsSpace(s[i]) && !IsSpace(s[j - 1])
    ensures Trim(s) == s[i..j]
  {
    if i == j {
      assert AllSpace(s);
    } else {
      assert FindFirstNotSpace(s) == i;
      assert FindLastNotSpace(s) == j - 1;
    }
  }

  /** The facts of IsTrimOf, position by position. */
  lemma SpaceAround(s: string, i: nat, j: nat)
    requires i <= j <= |s| && AllSpace(s[..i]) && AllSpace(s[j..]) && NoEdgeSpace(s[i..j])
    ensures forall k :: 0 <= k < i ==> IsSpace(s[k])
    ensures forall k :: j <= k < |s| ==> IsSpace(s[k])
    ensures i < j ==> !IsSpace(s[i]) && !IsSpace(s[j - 1])
  {
    forall k | 0 <= k < i ensures IsSpace(s[k]) { assert s[..i][k] == s[k]; }
    forall k | j <= k < |s| ensures IsSpace(s[k]) { assert s[j..][k - j] == s[k]; }
    if i < j {
      assert s[i..j][0] == s[i] && s[i..j][j - i - 1] == s[j - 1];
    }
  }

  /** Only one string is the trim of `s`, so IsTrimOf fully specifies Trim. */
  lemma TrimUnique(s: string, r: string)
    requires IsTrimOf(r, s)
    ensures r == Trim(s)
  {
    var i, j :| 0 <= i <= j <= |s| && s[i..j] == r && AllSpace(s[..i]) && AllSpace(s[j..]) && NoEdgeSpace(r);
    SpaceAround(s, i, j);
    TrimBetween(s, i, j);
  }

  /** Trim is the identity on strings without edge whitespace. */
  lemma TrimNoEdgeSpace(s: string)
    requires NoEdgeSpace(s)
    ensures Trim(s) == s
  {
    assert s[0..|s|] == s && s[..0] == [] && s[|s|..] == [];
    TrimUnique(s, s);
  }

  /** Trimming twice is trimming once. */
  lemma TrimIdempotent(s: string)
    ensures Trim(Trim(s)) == Trim(s)
  {
    TrimNoEdgeSpace(Trim(s));
  }

  // ---------------------------------------------------------------- split

  /** Index of the first `d` in `s`, or |s| when `d` does not occur. */
  function IndexOf(s: string, d: char): (k: nat)
    ensures k <= |s|
  {
    if s == [] || s[0] == d then 0 else 1 + IndexOf(s[1..], d)
  }

  /** IndexOf finds the first occurrence: none before it, `d` at it. */
  lemma {:induction false} IndexOfFirst(s: string, d: char)
    ensures var k := IndexOf(s, d);
      (forall i :: 0 <= i < k ==> s[i] != d) && (k < |s| ==> s[k] == d)
    decreases |s|
  {
    if s != [] && s[0] != d {
      IndexOfFirst(s[1..], d);
    }
  }

  /** The first `d` in `p + q` is the one that starts `q` when `p` has none. */
  lemma IndexOfMarker(p: string, q: string, d: char)
    requires d !in p && q != [] && q[0] == d
    ensures IndexOf(p + q, d) == |p|
  {
    IndexOfFirst(p + q, d);
    var k := IndexOf(p + q, d);
    assert (p + q)[|p|] == d;
    assert forall i :: 0 <= i < |p| ==> (p + q)[i] == p[i];
  }

  /** A string that has no `d` and a string that starts with `d` can be
      told apart again after concatenation. */
  lemma SplitAtMarker(p: string, q: string, p': string, q': string, d: char)
    requires d !in p && q != [] && q[0] == d
    requires d !in p' && q' != [] && q'[0] == d
    requires p + q == p' + q'
    ensures p == p' && q == q'
  {
    IndexOfMarker(p, q, d);
    IndexOfMarker(p', q', d);
    assert p == (p + q)[..|p|];
    assert p' == (p' + q')[..|p'|];
    assert q == (p + q)[|p|..];
    assert q' == (p' + q')[|p'|..];
  }

  /** The tokens that repeated std::getline(stream, token, d) extracts from
      `s`: each call takes the text up to the next `d` (dropping the `d`) or
      to the end, and fails once nothing at all is left. */
  function Tokens(s: string, d: char): (r: seq<string>)
    decreases |s|
  {
    if s == [] then []
    else
      var k := IndexOf(s, d);
      if k == |s| then [s] else [s[..k]] + Tokens(s[k + 1..], d)
  }

  /** No token contains the delimiter. */
  lemma {:induction false} TokensExcludeDelimiter(s: string, d: char)
    ensures forall i :: 0 <= i < |Tokens(s, d)| ==> d !in Tokens(s, d)[i]
    decreases |s|
  {
    if s != [] {
      var k := IndexOf(s, d);
      IndexOfFirst(s, d);
      if k < |s| {
        TokensExcludeDelimiter(s[k + 1..], d);
      }
    }
  }

  /** The tokens glued back together with `d` between them. */
  function Join(ts: seq<string>, d: char): (r: string) {
    if ts == [] then ""
    else if |ts| == 1 then ts[0]
    else ts[0] + [d] + Join(ts[1..], d)
  }

  /** `s` without the one trailing `d` it may end with. */
  function DropTrailing(s: string, d: char): (r: string) {
    if s != [] && s[|s| - 1] == d then s[..|s| - 1] else s
  }

  /** Dropping the trailing delimiter of a non-empty tail commutes with a prefix. */
  lemma DropTrailingAppend(a: string, t: string, d: char)
    requires t != []
    ensures a + DropTrailing(t, d) == DropTrailing(a + t, d)
  {
    assert (a + t)[|a + t| - 1] == t[|t| - 1];
    if t[|t| - 1] == d {
      assert (a + t)[..|a + t| - 1] == a + t[..|t| - 1];
    }
  }

  /** Joining the tokens gives back the input, less one trailing delimiter. */
  lemma {:induction false} JoinTokens(s: string, d: char)
    ensures Join(Tokens(s, d), d) == DropTrailing(s, d)
    decreases |s|
  {
    if s != [] {
      var k := IndexOf(s, d);
      IndexOfFirst(s, d);
      if k < |s| {
        var head, rest := s[..k], s[k + 1..];
        assert s == head + [d] + rest;
        if rest == [] {
          assert Tokens(s, d) == [head];
        } else {
          var ts := Tokens(rest, d);
          assert Tokens(s, d) == [head] + ts;
          assert ([head] + ts)[1..] == ts;
          assert Join(Tokens(s, d), d) == head + [d] + Join(ts, d);
          JoinTokens(rest, d);
          DropTrailingAppend(head + [d], rest, d);
        }
      }
    }
  }

  /** Occurrences of `d` in `s`. */
  function Count(s: string, d: char): (r: nat) {
    if s == [] then 0 else (if s[0] == d then 1 else 0) + Count(s[1..], d)
  }

  lemma {:induction false} CountAppend(a: string, b: string, d: char)
    ensures Count(a + b, d) == Count(a, d) + Count(b, d)
    decreases |a|
  {
    if a != [] {
      assert (a + b)[1..] == a[1..] + b;
      CountAppend(a[1..], b, d);
    } else {
      assert a + b == b;
    }
  }

  lemma {:induction false} CountAbsent(s: string, d: char)
    requires forall i :: 0 <= i < |s| ==> s[i] != d
    ensures Count(s, d) == 0
    decreases |s|
  {
    if s != [] {
      CountAbsent(s[1..], d);
    }
  }

  /** A string is what comes before position `k`, the character at `k` and
      what follows it. */
  lemma SplitAround(s: string, k: nat)
    requires k < |s|
    ensures s == s[..k] + ([s[k]] + s[k + 1..])
  {
    assert s[k..] == [s[k]] + s[k + 1..];
    assert s == s[..k] + s[k..];
  }

  /** One token per delimiter, plus one for a final unterminated piece: a
      trailing delimiter closes the last token and opens no empty one. */
  lemma {:induction false} TokensCount(s: string, d: char)
    ensures |Tokens(s, d)| == Count(s, d) + (if s == [] || s[|s| - 1] == d then 0 else 1)
    decreases |s|
  {
    if s != [] {
      var k := IndexOf(s, d);
      IndexOfFirst(s, d);
      var head := s[..k];
      CountAbsent(head, d);
      if k == |s| {
        assert head == s;
      } else {
        var rest := s[k + 1..];
        TokensCount(rest, d);
        var tail := [d] + rest;
        SplitAround(s, k);
        CountAppend(head, tail, d);
        assert tail[1..] == rest;
        assert Count(tail, d) == 1 + Count(rest, d);
        assert Tokens(s, d) == [head] + Tokens(rest, d);
        if rest != [] { assert rest[|rest| - 1] == s[|s| - 1]; }
      }
    }
  }

  /** One std::getline on a non-empty stream: the token up to the first
      `d`, and then the tokens of what follows that `d`. */
  lemma {:induction false} TokensUnfold(t: string, d: char)
    requires t != []
    ensures var k := IndexOf(t, d);
      Tokens(t, d) == [t[..k]] + (if k < |t| then Tokens(t[k + 1..], d) else [])
  {
    var k := IndexOf(t, d);
    if k < |t| {
      assert Tokens(t, d) == [t[..k]] + Tokens(t[k + 1..], d);
    } else {
      assert t[..k] == t;
      AppendEmpty([t]);
    }
  }

  /** The invariant of Split survives one std::getline. */
  lemma GetlineAdvance(s: string, d: char, rest: string, tokens: seq<string>)
    requires rest != [] && tokens + Tokens(rest, d) == Tokens(s, d)
    ensures var k := IndexOf(rest, d);
      tokens + [rest[..k]] + Tokens(if k < |rest| then rest[k + 1..] else [], d) == Tokens(s, d)
  {
    var k := IndexOf(rest, d);
    TokensUnfold(rest, d);
    if k < |rest| {
      AppendAssoc(tokens, [rest[..k]], Tokens(rest[k + 1..], d));
    } else {
      AppendEmpty(tokens + [rest[..k]]);
    }
  }

  /** utils::split: a std::getline loop over a string stream; each call
      takes the text up to the next delimiter, or to the end when none is
      left, and discards the delimiter. `rest` is the unread part of the
      stream. */
  method Split(s: string, d: char) returns (tokens: seq<string>)
    ensures tokens == Tokens(s, d)
  {
    tokens := [];
    var rest := s;
    AppendEmpty(Tokens(s, d));
    while rest != []
      invariant tokens + Tokens(rest, d) == Tokens(s, d)
      decreases |rest|
    {
      var k := IndexOf(rest, d);
      GetlineAdvance(s, d, rest, tokens);
      tokens := tokens + [rest[..k]];
      rest := if k < |rest| then rest[k + 1..] else [];
    }
    AppendEmpty(tokens);
  }

  // ---------------------------------------------------------------- whitespace split

  /** Length of the run of non-whitespace characters at the start of `s`. */
  function WordLength(s: string): (k: nat)
    ensures k <= |s|
    ensures forall i :: 0 <= i < k ==> !IsSpace(s[i])
    ensures k < |s| ==> IsSpace(s[k])
  {
    if s == [] || IsSpace(s[0]) then 0 else 1 + WordLength(s[1..])
  }

  /** The words repeated `stream >> token` extracts from `s`: skip
      whitespace, then take characters up to the next whitespace. */
  function Words(s: string): (r: seq<string>)
    decreases |s|
  {
    if s == [] then []
    else if IsSpace(s[0]) then Words(s[1..])
    else
      var k := WordLength(s);
      [s[..k]] + Words(s[k..])
  }

  predicate ProperWords(words: seq<string>) {
    forall i :: 0 <= i < |words| ==> words[i] != [] && NoSpace(words[i])
  }

  /** Every word is non-empty and free of whitespace. */
  lemma {:induction false} WordsProper(s: string)
    ensures ProperWords(Words(s))
    decreases |s|
  {
    if s != [] {
      if IsSpace(s[0]) {
        WordsProper(s[1..]);
      } else {
        WordsProper(s[WordLength(s)..]);
      }
    }
  }

  /** gaps[0] + words[0] + gaps[1] + ... + words[n-1] + gaps[n]. */
  function Weave(gaps: seq<string>, words: seq<string>): (r: string)
    requires |gaps| == |words| + 1
  {
    if words == [] then gaps[0]
    else gaps[0] + words[0] + Weave(gaps[1..], words[1..])
  }

  /** Whitespace separators: the outer two may be empty, the inner ones not. */
  predicate Separators(gaps: seq<string>) {
    && |gaps| >= 1
    && (forall i :: 0 <= i < |gaps| ==> AllSpace(gaps[i]))
    && (forall i :: 0 < i < |gaps| - 1 ==> gaps[i] != [])
  }

  /** Whitespace placed in front of `s` does not change its words. */
  lemma {:induction false} WordsSkipSpace(g: string, s: string)
    requires AllSpace(g)
    ensures Words(g + s) == Words(s)
    decreases |g|
  {
    if g != [] {
      assert (g + s)[1..] == g[1..] + s;
      WordsSkipSpace(g[1..], s);
    } else {
      assert g + s == s;
    }
  }

  /** A word followed by nothing or by whitespace is taken whole. */
  lemma WordsTakeWord(w: string, rest: string)
    requires w != [] && NoSpace(w)
    requires rest == [] || IsSpace(rest[0])
    ensures Words(w + rest) == [w] + Words(rest)
  {
    var s := w + rest;
    assert s[..|w|] == w && s[|w|..] == rest;
    assert WordLength(s) == |w|;
  }

  /** The separators behind the first one are separators again. */
  lemma SeparatorsTail(gaps: seq<string>)
    requires |gaps| >= 2 && Separators(gaps)
    ensures Separators(gaps[1..])
  {
    assert forall i :: 0 <= i < |gaps| - 1 ==> gaps[1..][i] == gaps[i + 1];
  }

  /** A weave whose first gap is inner is empty or starts with whitespace. */
  lemma WeaveStartsWithSpace(gaps: seq<string>, words: seq<string>)
    requires |gaps| == |words| + 1 && (forall i :: 0 <= i < |gaps| ==> AllSpace(gaps[i]))
    requires words != [] ==> gaps[0] != []
    ensures var t := Weave(gaps, words); t == [] || IsSpace(t[0])
  {
    if words != [] {
      AppendAssoc(gaps[0], words[0], Weave(gaps[1..], words[1..]));
    }
  }

  /** Words recovers the runs of any weave of proper words with whitespace:
      the tokens are exactly the maximal non-whitespace runs, in order. */
  lemma {:induction false} WordsOfWeave(gaps: seq<string>, words: seq<string>)
    requires |gaps| == |words| + 1 && Separators(gaps) && ProperWords(words)
    ensures Words(Weave(gaps, words)) == words
    decreases |words|
  {
    if words == [] {
      WordsSkipSpace(gaps[0], []);
      AppendEmpty(gaps[0]);
    } else {
      var w := words[0];
      var rest := Weave(gaps[1..], words[1..]);
      AppendAssoc(gaps[0], w, rest);
      WordsSkipSpace(gaps[0], w + rest);
      SeparatorsTail(gaps);
      WordsOfWeave(gaps[1..], words[1..]);
      WeaveStartsWithSpace(gaps[1..], words[1..]);
      WordsTakeWord(w, rest);
    }
  }

  /** One more whitespace character in front of a weave joins its first gap. */
  lemma WidenFirstGap(c: char, g': seq<string>, ws: seq<string>) returns (g: seq<string>)
    requires IsSpace(c) && |g'| == |ws| + 1 && Separators(g')
    ensures |g| == |ws| + 1 && Separators(g) && Weave(g, ws) == [c] + Weave(g', ws)
  {
    g := [[c] + g'[0]] + g'[1..];
    assert forall i :: 0 < i < |g| ==> g[i] == g'[i];
    assert AllSpace(g[0]);
    if ws != [] {
      assert g[1..] == g'[1..];
    }
  }

  /** A word in front of a weave that starts with whitespace (or is empty)
      becomes its first word, behind an empty gap. */
  lemma PrefixWord(w: string, g': seq<string>, ws: seq<string>) returns (g: seq<string>)
    requires w != [] && |g'| == |ws| + 1 && Separators(g') && ProperWords(ws)
    requires var t := Weave(g', ws); t == [] || IsSpace(t[0])
    ensures |g| == |ws| + 2 && Separators(g) && Weave(g, [w] + ws) == w + Weave(g', ws)
  {
    g := [""] + g';
    assert g[1..] == g';
    assert ([w] + ws)[1..] == ws;
    if ws != [] {
      assert ws[0] != [];
      var t := Weave(g', ws);
      assert t == g'[0] + ws[0] + Weave(g'[1..], ws[1..]);
    }
    assert forall i :: 0 < i < |g| - 1 ==> g[i] == g'[i - 1];
  }

  /** Every string is a weave of its words with whitespace separators. */
  lemma {:induction false} WeaveOfWords(s: string)
    ensures exists gaps :: |gaps| == |Words(s)| + 1 && Separators(gaps) && Weave(gaps, Words(s)) == s
    decreases |s|
  {
    if s == [] {
      assert Weave([""], []) == s;
    } else if IsSpace(s[0]) {
      var tail := s[1..];
      WeaveOfWords(tail);
      var ws := Words(tail);
      assert Words(s) == ws;
      var g' :| |g'| == |ws| + 1 && Separators(g') && Weave(g', ws) == tail;
      var g := WidenFirstGap(s[0], g', ws);
      assert s == [s[0]] + tail;
      assert Weave(g, Words(s)) == s;
    } else {
      var k := WordLength(s);
      var w, tail := s[..k], s[k..];
      assert Words(s) == [w] + Words(tail);
      assert s == w + tail;
      assert tail == [] || IsSpace(tail[0]);
      WeaveOfWords(tail);
      var ws := Words(tail);
      WordsProper(tail);
      var g' :| |g'| == |ws| + 1 && Separators(g') && Weave(g', ws) == tail;
      var g := PrefixWord(w, g', ws);
    }
  }

  /** Skipping leading whitespace does not change the words. */
  lemma WordsAfterSkip(s: string)
    ensures Words(s[FindFirstNotSpace(s)..]) == Words(s)
  {
    var k := FindFirstNotSpace(s);
    assert s == s[..k] + s[k..];
    WordsSkipSpace(s[..k], s[k..]);
  }

  /** A `stream >> token` fails when only whitespace is left. */
  lemma ExtractFails(rest: string)
    requires FindFirstNotSpace(rest) == |rest|
    ensures Words(rest) == []
  {
    WordsAfterSkip(rest);
    assert rest[|rest|..] == [];
  }

  /** Otherwise it yields the run of non-whitespace after the skipped
      whitespace, and leaves the stream just behind that run. */
  lemma ExtractWord(rest: string)
    requires FindFirstNotSpace(rest) < |rest|
    ensures var w := rest[FindFirstNotSpace(rest)..];
      0 < WordLength(w) && Words(rest) == [w[..WordLength(w)]] + Words(w[WordLength(w)..])
  {
    WordsAfterSkip(rest);
    var w := rest[FindFirstNotSpace(rest)..];
    assert !IsSpace(w[0]);
  }

  /** utils::splitWhitespace: a `stream >> token` loop over a string stream;
      each extraction skips whitespace, fails if nothing follows, and
      otherwise takes characters up to the next whitespace. `rest` is the
      unread part of the stream. */
  method SplitWhitespace(s: string) returns (tokens: seq<string>)
    ensures tokens == Words(s)
  {
    tokens := [];
    var rest := s;
    AppendEmpty(Words(s));
    while rest != []
      invariant tokens + Words(rest) == Words(s)
      decreases |rest|
    {
      var skip := FindFirstNotSpace(rest);
      if skip == |rest| {
        ExtractFails(rest);
        rest := [];
      } else {
        ExtractWord(rest);
        var w := rest[skip..];
        var k := WordLength(w);
        AppendAssoc(tokens, [w[..k]], Words(w[k..]));
        tokens := tokens + [w[..k]];
        rest := w[k..];
      }
    }
    AppendEmpty(tokens);
  }
}
