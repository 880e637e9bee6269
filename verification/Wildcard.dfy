/** Filename patterns: `*` stands for any run of characters, `?` for any single one. */
module Wildcard {
  import opened Basics

  type Text = seq<char>

  // ---------- What a pattern means ----------

  predicate Matches(p: Text, n: Text)
    decreases |p|, |n|
  {
    if p == [] then n == []
    else if p[0] == '*' then Matches(p[1..], n) || (n != [] && Matches(p, n[1..]))
    else n != [] && (p[0] == '?' || p[0] == n[0]) && Matches(p[1..], n[1..])
  }

  // ---------- The single-backtrack matcher ----------

  /** Where the matcher stands: indices into pattern and name, the last `*`, and the name index it retries from. */
  datatype Cursor = Cursor(p: nat, n: nat, star: Option<nat>, retry: nat)

  predicate InRange(p: Text, n: Text, c: Cursor) {
    && c.p <= |p| && c.n <= |n| && c.retry <= c.n
    && (c.star.Some? ==> c.star.value < c.p)
  }

  function StarRank(p: Text, c: Cursor): nat
    requires c.star.Some? ==> c.star.value < |p|
  {
    if c.star.Some? then |p| - c.star.value else |p| + 1
  }

  function SkipStars(p: Text, i: nat): (j: nat)
    requires i <= |p|
    ensures i <= j <= |p| && (j < |p| ==> p[j] != '*')
    decreases |p| - i
  {
    if i < |p| && p[i] == '*' then SkipStars(p, i + 1) else i
  }

  /** The verdict the matcher reaches from a cursor. */
  function Run(p: Text, n: Text, c: Cursor): bool
    requires InRange(p, n, c)
    decreases StarRank(p, c), |n| - c.retry, |n| - c.n
  {
    if c.n == |n| then SkipStars(p, c.p) == |p|
    else if c.p < |p| && (p[c.p] == '?' || p[c.p] == n[c.n]) then Run(p, n, c.(p := c.p + 1, n := c.n + 1))
    else if c.p < |p| && p[c.p] == '*' then Run(p, n, Cursor(c.p + 1, c.n, Some(c.p), c.n))
    else if c.star.Some? then Run(p, n, Cursor(c.star.value + 1, c.retry + 1, c.star, c.retry + 1))
    else false
  }

  /** One turn of the matcher. */
  lemma RunTurns(p: Text, n: Text, c: Cursor)
    requires InRange(p, n, c) && c.n < |n|
    ensures Run(p, n, c) ==
            if c.p < |p| && (p[c.p] == '?' || p[c.p] == n[c.n]) then Run(p, n, c.(p := c.p + 1, n := c.n + 1))
            else if c.p < |p| && p[c.p] == '*' then Run(p, n, Cursor(c.p + 1, c.n, Some(c.p), c.n))
            else if c.star.Some? then Run(p, n, Cursor(c.star.value + 1, c.retry + 1, c.star, c.retry + 1))
            else false
  {
  }

  lemma RunEnds(p: Text, n: Text, c: Cursor)
    requires InRange(p, n, c) && c.n == |n|
    ensures Run(p, n, c) == (SkipStars(p, c.p) == |p|)
  {
  }

  function Verdict(p: Text, n: Text): bool {
    Run(p, n, Cursor(0, 0, None, 0))
  }

  method UnicodeWildcard(p: Text, n: Text) returns (matched: bool)
    ensures matched == Verdict(p, n)
    ensures '*' !in n ==> matched == Matches(p, n)
  {
    if '*' !in n {
      VerdictIsMeaning(p, n);
    }
    hide Run, Matches;
    var pi: nat, ni: nat, star: Option<nat>, retry: nat := 0, 0, None, 0;
    while ni < |n|
      invariant InRange(p, n, Cursor(pi, ni, star, retry))
      invariant Run(p, n, Cursor(pi, ni, star, retry)) == Verdict(p, n)
      decreases StarRank(p, Cursor(pi, ni, star, retry)), |n| - retry, |n| - ni
    {
      RunTurns(p, n, Cursor(pi, ni, star, retry));
      if pi < |p| && (p[pi] == '?' || p[pi] == n[ni]) {
        pi, ni := pi + 1, ni + 1;
      } else if pi < |p| && p[pi] == '*' {
        star := Some(pi);
        pi := pi + 1;
        retry := ni;
      } else if star.Some? {
        retry := retry + 1;
        ni := retry;
        pi := star.value + 1;
      } else {
        return false;
      }
    }
    RunEnds(p, n, Cursor(pi, ni, star, retry));
    while pi < |p| && p[pi] == '*'
      invariant pi <= |p| && (SkipStars(p, pi) == |p|) == Verdict(p, n)
    {
      pi := pi + 1;
    }
    return pi == |p|;
  }

  // ---------- ASCII names are compared without building lowered copies ----------

  function LowerChar(c: char): char {
    if 'A' <= c <= 'Z' then (c as int + 32) as char else c
  }

  function Lower(t: Text): (l: Text)
    ensures |l| == |t| && forall i :: 0 <= i < |t| ==> l[i] == LowerChar(t[i])
  {
    seq(|t|, i requires 0 <= i < |t| => LowerChar(t[i]))
  }

  lemma LowerKeepsSigns(c: char)
    ensures (LowerChar(c) == '?' <==> c == '?') && (LowerChar(c) == '*' <==> c == '*')
  {
  }

  /** The ASCII matcher folds case on the fly and decides exactly as the general one does on lowered text. */
  method AsciiWildcard(p: Text, n: Text) returns (matched: bool)
    ensures matched == Verdict(Lower(p), Lower(n))
  {
    hide Run, LowerChar;
    ghost var lp, ln := Lower(p), Lower(n);
    var pi: nat, ni: nat, star: Option<nat>, retry: nat := 0, 0, None, 0;
    while ni < |n|
      invariant InRange(lp, ln, Cursor(pi, ni, star, retry))
      invariant Run(lp, ln, Cursor(pi, ni, star, retry)) == Verdict(lp, ln)
      decreases StarRank(lp, Cursor(pi, ni, star, retry)), |n| - retry, |n| - ni
    {
      RunTurns(lp, ln, Cursor(pi, ni, star, retry));
      if pi < |p| {
        LowerKeepsSigns(p[pi]);
      }
      if pi < |p| && (p[pi] == '?' || LowerChar(p[pi]) == LowerChar(n[ni])) {
        pi, ni := pi + 1, ni + 1;
      } else if pi < |p| && p[pi] == '*' {
        star := Some(pi);
        pi := pi + 1;
        retry := ni;
      } else if star.Some? {
        retry := retry + 1;
        ni := retry;
        pi := star.value + 1;
      } else {
        return false;
      }
    }
    RunEnds(lp, ln, Cursor(pi, ni, star, retry));
    while pi < |p| && p[pi] == '*'
      invariant pi <= |p| && (SkipStars(lp, pi) == |lp|) == Verdict(lp, ln)
    {
      LowerKeepsSigns(p[pi]);
      pi := pi + 1;
    }
    if pi < |p| {
      LowerKeepsSigns(p[pi]);
    }
    return pi == |p|;
  }

  // ---------- The matcher is right on names without a star ----------

  /** `p[a..b]` holds no star and matches `n[r..m]` character by character. */
  ghost predicate Literal(p: Text, a: nat, b: nat, n: Text, r: nat, m: nat) {
    && a <= b <= |p| && r <= m <= |n| && m - r == b - a
    && forall i :: a <= i < b ==> p[i] != '*' && (p[i] == '?' || p[i] == n[i - a + r])
  }

  lemma {:induction false} LiteralStrips(p: Text, a: nat, b: nat, n: Text, r: nat, m: nat)
    requires Literal(p, a, b, n, r, m)
    ensures Matches(p[a..], n[r..]) == Matches(p[b..], n[m..])
    decreases b - a
  {
    if a < b {
      LiteralStrips(p, a + 1, b, n, r + 1, m);
      assert p[a..][1..] == p[a + 1..] && n[r..][1..] == n[r + 1..];
      assert p[a..][0] == p[a] && n[r..][0] == n[r];
    }
  }

  /** A pattern without stars in front eats exactly as many characters of any name it matches. */
  lemma {:induction false} PrefixEats(p: Text, a: nat, b: nat, n: Text, k: nat)
    requires a <= b <= |p| && k <= |n| && forall i :: a <= i < b ==> p[i] != '*'
    requires Matches(p[a..], n[k..])
    ensures k + (b - a) <= |n| && Matches(p[b..], n[k + (b - a)..])
    decreases b - a
  {
    if a < b {
      assert p[a..][1..] == p[a + 1..] && n[k..][1..] == n[k + 1..];
      PrefixEats(p, a + 1, b, n, k + 1);
    }
  }

  /** A leading star may begin earlier. */
  lemma {:induction false} StarAbsorbs(p: Text, s: nat, n: Text, r: nat, k: nat)
    requires s < |p| && p[s] == '*' && r <= k <= |n| && Matches(p[s..], n[k..])
    ensures Matches(p[s..], n[r..])
    decreases k - r
  {
    if r < k {
      StarAbsorbs(p, s, n, r + 1, k);
      assert n[r..][1..] == n[r + 1..];
    }
  }

  /** A star that matches hands over to the rest of the pattern at some later position. */
  lemma {:induction false} StarHandsOver(p: Text, s: nat, n: Text, r: nat) returns (k: nat)
    requires s < |p| && p[s] == '*' && r <= |n| && Matches(p[s..], n[r..])
    ensures r <= k <= |n| && Matches(p[s + 1..], n[k..])
    decreases |n| - r
  {
    assert p[s..][1..] == p[s + 1..];
    if Matches(p[s + 1..], n[r..]) {
      k := r;
    } else {
      assert n[r..][1..] == n[r + 1..];
      k := StarHandsOver(p, s, n, r + 1);
    }
  }

  /** What the matcher knows at a cursor: everything before the last star is settled for good. */
  ghost predicate Sound(p: Text, n: Text, c: Cursor) {
    && InRange(p, n, c)
    && match c.star
       case None => Matches(p[c.p..], n[c.n..]) == Matches(p, n)
       case Some(s) => p[s] == '*' && Literal(p, s + 1, c.p, n, c.retry, c.n)
                       && Matches(p[s..], n[c.retry..]) == Matches(p, n)
  }

  lemma {:induction false} StarsMatchNothing(p: Text, i: nat)
    requires i <= |p|
    ensures Matches(p[i..], []) <==> SkipStars(p, i) == |p|
    decreases |p| - i
  {
    if i < |p| {
      assert p[i..][1..] == p[i + 1..];
      StarsMatchNothing(p, i + 1);
    }
  }

  lemma AtEnd(p: Text, n: Text, c: Cursor)
    requires Sound(p, n, c) && c.n == |n|
    ensures Matches(p, n) <==> SkipStars(p, c.p) == |p|
  {
    StarsMatchNothing(p, c.p);
    assert n[c.n..] == [];
    if c.star.Some? {
      var s := c.star.value;
      assert p[s..][1..] == p[s + 1..];
      LiteralStrips(p, s + 1, c.p, n, c.retry, c.n);
      if Matches(p[s..], n[c.retry..]) {
        var k := StarHandsOver(p, s, n, c.retry);
        PrefixEats(p, s + 1, c.p, n, k);
      }
    }
  }

  lemma Advance(p: Text, n: Text, c: Cursor)
    requires Sound(p, n, c) && c.n < |n| && n[c.n] != '*'
    requires c.p < |p| && (p[c.p] == '?' || p[c.p] == n[c.n])
    ensures Sound(p, n, c.(p := c.p + 1, n := c.n + 1))
  {
    assert p[c.p..][1..] == p[c.p + 1..] && n[c.n..][1..] == n[c.n + 1..];
  }

  lemma MeetStar(p: Text, n: Text, c: Cursor)
    requires Sound(p, n, c) && c.n < |n| && c.p < |p| && p[c.p] == '*'
    ensures Sound(p, n, Cursor(c.p + 1, c.n, Some(c.p), c.n))
  {
    if c.star.Some? {
      var s := c.star.value;
      assert p[s..][1..] == p[s + 1..];
      LiteralStrips(p, s + 1, c.p, n, c.retry, c.n);
      if Matches(p[s..], n[c.retry..]) {
        var k := StarHandsOver(p, s, n, c.retry);
        PrefixEats(p, s + 1, c.p, n, k);
        StarAbsorbs(p, c.p, n, c.n, k + (c.p - s - 1));
      }
    }
  }

  lemma Mismatch(p: Text, n: Text, c: Cursor)
    requires Sound(p, n, c) && c.n < |n|
    requires c.p < |p| ==> p[c.p] != '?' && p[c.p] != n[c.n] && p[c.p] != '*'
    ensures c.star.Some? ==> Sound(p, n, Cursor(c.star.value + 1, c.retry + 1, c.star, c.retry + 1))
    ensures c.star == None ==> !Matches(p, n)
  {
    assert !Matches(p[c.p..], n[c.n..]);
    if c.star.Some? {
      var s := c.star.value;
      LiteralStrips(p, s + 1, c.p, n, c.retry, c.n);
      assert p[s..][1..] == p[s + 1..] && n[c.retry..][1..] == n[c.retry + 1..];
    }
  }

  lemma {:induction false} RunIsSound(p: Text, n: Text, c: Cursor)
    requires Sound(p, n, c) && '*' !in n
    ensures Run(p, n, c) == Matches(p, n)
    decreases StarRank(p, c), |n| - c.retry, |n| - c.n
  {
    hide Matches, Literal;
    if c.n == |n| {
      AtEnd(p, n, c);
    } else if c.p < |p| && (p[c.p] == '?' || p[c.p] == n[c.n]) {
      Advance(p, n, c);
      RunIsSound(p, n, c.(p := c.p + 1, n := c.n + 1));
    } else if c.p < |p| && p[c.p] == '*' {
      MeetStar(p, n, c);
      RunIsSound(p, n, Cursor(c.p + 1, c.n, Some(c.p), c.n));
    } else {
      Mismatch(p, n, c);
      if c.star.Some? {
        RunIsSound(p, n, Cursor(c.star.value + 1, c.retry + 1, c.star, c.retry + 1));
      }
    }
  }

  /** On a name without `*` the matcher decides every pattern by its meaning. */
  lemma VerdictIsMeaning(p: Text, n: Text)
    requires '*' !in n
    ensures Verdict(p, n) == Matches(p, n)
  {
    assert p[0..] == p && n[0..] == n;
    RunIsSound(p, n, Cursor(0, 0, None, 0));
  }

  // ---------- And on no other names ----------

  /** A pattern that repeats the name so far takes the name's own star for a literal character. */
  lemma {:induction false} RunRepeats(p: Text, n: Text, i: nat, k: nat)
    requires i <= k <= |p| && k <= |n| && p[..k] == n[..k]
    ensures Run(p, n, Cursor(i, i, None, 0)) == Run(p, n, Cursor(k, k, None, 0))
    decreases k - i
  {
    if i < k {
      assert p[i] == p[..k][i] == n[..k][i] == n[i];
      RunRepeats(p, n, i + 1, k);
    }
  }

  lemma {:induction false} MeaningRepeats(p: Text, n: Text, i: nat, k: nat)
    requires i <= k <= |p| && k <= |n| && p[..k] == n[..k] && '*' !in n[..k]
    ensures Matches(p[i..], n[i..]) == Matches(p[k..], n[k..])
    decreases k - i
  {
    if i < k {
      assert p[i] == p[..k][i] == n[..k][i] == n[i];
      assert n[i] in n[..k];
      assert p[i..][1..] == p[i + 1..] && n[i..][1..] == n[i + 1..];
      MeaningRepeats(p, n, i + 1, k);
    }
  }

  lemma {:induction false} StarMatchesAll(n: Text)
    ensures Matches(['*'], n)
  {
    if n != [] {
      StarMatchesAll(n[1..]);
    }
  }

  /** A pattern on which the matcher misjudges a name that holds a star. */
  lemma StarNameIsMisjudged(n: Text) returns (p: Text)
    requires '*' in n
    ensures Matches(p, n) && !Verdict(p, n)
  {
    var k := FirstStar(n);
    p := n[..k] + if k + 1 < |n| then ['*'] else ['*', '?'];
    assert p[..k + 1] == n[..k + 1];
    RunRepeats(p, n, 0, k + 1);
    MeaningRepeats(p, n, 0, k);
    assert p[0..] == p && n[0..] == n;
    if k + 1 < |n| {
      assert p[k..] == ['*'];
      StarMatchesAll(n[k..]);
      assert Run(p, n, Cursor(k + 1, k + 1, None, 0)) == false;
    } else {
      assert p[k..] == ['*', '?'] && n[k..] == ['*'];
      assert ['*', '?'][1..] == ['?'] && ['?'][1..] == [] && ['*'][1..] == [];
      assert Matches(['?'], ['*']);
      assert Matches(['*', '?'], ['*']);
    }
  }

  lemma FirstStar(n: Text) returns (k: nat)
    requires '*' in n
    ensures k < |n| && n[k] == '*' && '*' !in n[..k]
  {
    k := 0;
    while n[k] != '*'
      invariant k < |n| && '*' !in n[..k] && '*' in n[k..]
      decreases |n| - k
    {
      assert n[k..] == [n[k]] + n[k + 1..];
      assert n[..k + 1] == n[..k] + [n[k]];
      k := k + 1;
    }
  }

  /** The exact condition: the matcher is right about a name for every pattern if and only if the name has no star. */
  lemma RightExactlyWithoutStars(n: Text)
    ensures (forall p: Text :: Verdict(p, n) == Matches(p, n)) <==> '*' !in n
  {
    if '*' in n {
      var p := StarNameIsMisjudged(n);
    } else {
      forall p: Text ensures Verdict(p, n) == Matches(p, n) {
        VerdictIsMeaning(p, n);
      }
    }
  }

  // ---------- What a match is ----------

  /** `*` stands for any text, `?` for one character, every other character for itself. */
  predicate StandsFor(c: char, part: Text) {
    c == '*' || (|part| == 1 && (c == '?' || part[0] == c))
  }

  function Glued(parts: seq<Text>): Text {
    if parts == [] then [] else parts[0] + Glued(parts[1..])
  }

  /** The name is cut into one part for each character of the pattern. */
  ghost predicate IsCut(p: Text, n: Text, parts: seq<Text>) {
    |parts| == |p| && Glued(parts) == n && forall i :: 0 <= i < |p| ==> StandsFor(p[i], parts[i])
  }

  lemma {:induction false} MatchIsCut(p: Text, n: Text) returns (parts: seq<Text>)
    requires Matches(p, n)
    ensures IsCut(p, n, parts)
    decreases |p|, |n|
  {
    if p == [] {
      parts := [];
    } else if p[0] == '*' && !Matches(p[1..], n) {
      parts := MatchIsCut(p, n[1..]);
      var longer := [n[0]] + parts[0];
      assert ([longer] + parts[1..])[1..] == parts[1..];
      Associates([n[0]], parts[0], Glued(parts[1..]));
      assert n == [n[0]] + n[1..];
      parts := [longer] + parts[1..];
    } else {
      var part := if p[0] == '*' then [] else [n[0]];
      var rest := n[|part|..];
      parts := MatchIsCut(p[1..], rest);
      assert ([part] + parts)[1..] == parts && n == part + rest;
      parts := [part] + parts;
    }
  }

  lemma {:induction false} CutIsMatch(p: Text, n: Text, parts: seq<Text>)
    requires IsCut(p, n, parts)
    ensures Matches(p, n)
    decreases |p|, |n|
  {
    if p != [] {
      var part, rest := parts[0], parts[1..];
      assert n == part + Glued(rest);
      assert forall i :: 0 <= i < |p[1..]| ==> StandsFor(p[1..][i], rest[i]);
      if part == [] {
        CutIsMatch(p[1..], n, rest);
      } else if p[0] == '*' {
        var shorter := [part[1..]] + rest;
        assert shorter[1..] == rest && n[1..] == part[1..] + Glued(rest);
        CutIsMatch(p, n[1..], shorter);
      } else {
        assert n[1..] == Glued(rest);
        CutIsMatch(p[1..], n[1..], rest);
      }
    }
  }

  /** A pattern matches exactly the names that can be cut into parts for which its characters stand. */
  lemma MatchesMeans(p: Text, n: Text)
    ensures Matches(p, n) <==> exists parts :: IsCut(p, n, parts)
  {
    if Matches(p, n) {
      var parts := MatchIsCut(p, n);
    }
    if parts :| IsCut(p, n, parts) {
      CutIsMatch(p, n, parts);
    }
  }

  /** A capital is folded to the small letter at its place in the alphabet, and nothing else is folded. */
  lemma LettersAreFolded(t: Text, i: nat)
    requires i < |t|
    ensures 'A' <= t[i] <= 'Z' ==> 'a' <= Lower(t)[i] <= 'z' && Lower(t)[i] - 'a' == t[i] - 'A'
    ensures !('A' <= t[i] <= 'Z') ==> Lower(t)[i] == t[i]
  {
  }
}
