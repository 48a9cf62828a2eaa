/** Secret redaction by scan and replace (internal/secrets/filter.go). */
module Redaction {
  import opened Outcomes

  // ---------------------------------------------------------------- patterns

  datatype Class = Only(c: char) | UpperOrDigit | TokenKind | AlphaNumeric | WordOrDash

  predicate Upper(c: char) { 'A' <= c <= 'Z' }
  predicate Lower(c: char) { 'a' <= c <= 'z' }
  predicate Digit(c: char) { '0' <= c <= '9' }

  predicate Has(k: Class, c: char) {
    match k
    case Only(d) => c == d
    case UpperOrDigit => Upper(c) || Digit(c)
    case TokenKind => c in "pousr"
    case AlphaNumeric => Upper(c) || Lower(c) || Digit(c)
    case WordOrDash => Upper(c) || Lower(c) || Digit(c) || c == '_' || c == '-'
  }

  /** `min` characters of a class, or at least `min` when `more` is set. */
  datatype Atom = Atom(class_: Class, min: nat, more: bool)

  type Pattern = seq<Atom>

  /** A literal, one atom per character. */
  function Literal(s: string): Pattern {
    seq(|s|, i requires 0 <= i < |s| => Atom(Only(s[i]), 1, false))
  }

  /** AKIA[0-9A-Z]{16} */
  const AWS_KEY: Pattern := Literal("AKIA") + [Atom(UpperOrDigit, 16, false)]

  /** gh[pousr]_[A-Za-z0-9]{36,} */
  const GITHUB_TOKEN: Pattern :=
    Literal("gh") + [Atom(TokenKind, 1, false)] + Literal("_") + [Atom(AlphaNumeric, 36, true)]

  /** eyJ[A-Za-z0-9_-]{9,}\.[A-Za-z0-9_-]{10,}\.[A-Za-z0-9_-]{10,} */
  const WEB_TOKEN: Pattern :=
    Literal("eyJ") + [Atom(WordOrDash, 9, true)] + Literal(".") + [Atom(WordOrDash, 10, true)]
    + Literal(".") + [Atom(WordOrDash, 10, true)]

  const PATTERNS: seq<Pattern> := [AWS_KEY, GITHUB_TOKEN, WEB_TOKEN]

  const MARK := "[REDACTED]"

  // ---------------------------------------------------------------- the language of a pattern

  predicate AllIn(k: Class, s: string) {
    forall i :: 0 <= i < |s| ==> Has(k, s[i])
  }

  ghost predicate Fits(a: Atom, s: string) {
    AllIn(a.class_, s) && (|s| == a.min || (a.more && |s| >= a.min))
  }

  /** `s` is a word of the pattern: it splits into one run per atom. */
  ghost predicate Matches(p: Pattern, s: string)
    decreases |p|, 1
  {
    if p == [] then s == ""
    else exists n :: Splits(p, s, n)
  }

  ghost predicate Splits(p: Pattern, s: string, n: nat)
    requires p != []
    decreases |p|, 0
  {
    n <= |s| && Fits(p[0], s[..n]) && Matches(p[1..], s[n..])
  }

  /** Some substring of `s` is a word of the pattern. */
  ghost predicate Occurs(p: Pattern, s: string) {
    exists i, j :: OccursAt(p, s, i, j)
  }

  ghost predicate OccursAt(p: Pattern, s: string, i: nat, j: nat) {
    i <= j <= |s| && Matches(p, s[i..j])
  }

  // ---------------------------------------------------------------- the matcher

  /** Length of the longest prefix in the class. */
  function RunLength(k: Class, s: string): (n: nat)
    ensures n <= |s| && AllIn(k, s[..n])
    ensures forall m :: n < m <= |s| ==> !AllIn(k, s[..m])
  {
    if s == "" || !Has(k, s[0]) then
      assert s != "" ==> forall m :: 0 < m <= |s| ==> s[..m][0] == s[0];
      0
    else
      var n := 1 + RunLength(k, s[1..]);
      assert forall i :: 0 < i < n ==> s[..n][i] == s[1..][..n - 1][i - 1];
      assert forall m :: 0 < m <= |s| ==> s[1..][..m - 1] == s[..m][1..];
      n
  }

  /** Leftmost-first matching at the start of `s`, greedy with backtracking: the length of the
      match the engine prefers. */
  function MatchAt(p: Pattern, s: string): Option<nat>
    decreases |p|, 1, 0
  {
    if p == [] then Some(0)
    else
      var run := RunLength(p[0].class_, s);
      if run < p[0].min then None
      else if p[0].more then Longest(p, s, run)
      else Longest(p, s, p[0].min)
  }

  /** Tries the first atom with `n` characters, then with fewer, down to its minimum. */
  function Longest(p: Pattern, s: string, n: nat): Option<nat>
    requires p != [] && p[0].min <= n <= |s|
    decreases |p|, 0, n
  {
    match MatchAt(p[1..], s[n..])
    case Some(rest) => Some(n + rest)
    case None => if p[0].more && n > p[0].min then Longest(p, s, n - 1) else None
  }

  /** The matcher only reports words of the pattern. */
  lemma {:induction false} MatchAtSound(p: Pattern, s: string)
    ensures var r := MatchAt(p, s); r.Some? ==> r.value <= |s| && Matches(p, s[..r.value])
    decreases |p|, 1, 0
  {
    if p != [] {
      var run := RunLength(p[0].class_, s);
      if run >= p[0].min {
        LongestSound(p, s, if p[0].more then run else p[0].min);
      }
    }
  }

  lemma {:induction false} LongestSound(p: Pattern, s: string, n: nat)
    requires p != [] && p[0].min <= n <= RunLength(p[0].class_, s) && (n == p[0].min || p[0].more)
    ensures var r := Longest(p, s, n); r.Some? ==> r.value <= |s| && Matches(p, s[..r.value])
    decreases |p|, 0, n
  {
    MatchAtSound(p[1..], s[n..]);
    var rest := MatchAt(p[1..], s[n..]);
    if rest.Some? {
      var word := s[..n + rest.value];
      assert word[..n] == s[..RunLength(p[0].class_, s)][..n];
      assert word[n..] == s[n..][..rest.value];
      assert Splits(p, word, n);
    } else if p[0].more && n > p[0].min {
      LongestSound(p, s, n - 1);
    }
  }

  /** It misses none: if any prefix is a word, some match is reported. */
  lemma {:induction false} MatchAtComplete(p: Pattern, s: string, m: nat)
    requires m <= |s| && Matches(p, s[..m])
    ensures MatchAt(p, s).Some?
    decreases |p|, 1, 0
  {
    if p != [] {
      var n: nat :| Splits(p, s[..m], n);
      assert s[..m][..n] == s[..n];
      var run := RunLength(p[0].class_, s);
      assert n <= run;
      LongestComplete(p, s, if p[0].more then run else p[0].min, n, m);
    }
  }

  lemma {:induction false} LongestComplete(p: Pattern, s: string, start: nat, n: nat, m: nat)
    requires p != [] && m <= |s| && Splits(p, s[..m], n)
    requires p[0].min <= n <= start <= |s| && (start == n || p[0].more)
    ensures Longest(p, s, start).Some?
    decreases |p|, 0, start
  {
    if start == n {
      assert s[..m][n..] == s[n..][..m - n];
      MatchAtComplete(p[1..], s[n..], m - n);
    } else {
      LongestComplete(p, s, start - 1, n, m);
    }
  }

  /** An open-ended atom ends where its successor begins: their classes are disjoint. */
  ghost predicate Unambiguous(p: Pattern) {
    forall i :: 0 <= i < |p| - 1 && p[i].more ==> p[i + 1].min > 0 && Disjoint(p[i].class_, p[i + 1].class_)
  }

  ghost predicate Disjoint(k: Class, l: Class) {
    forall c :: Has(k, c) ==> !Has(l, c)
  }

  lemma FirstCharacter(p: Pattern, s: string)
    requires p != [] && p[0].min > 0 && Matches(p, s)
    ensures s != "" && Has(p[0].class_, s[0])
  {
    var n: nat :| Splits(p, s, n);
    assert s[..n][0] == s[0];
  }

  /** The match preferred by the engine is the longest one, so a secret goes as a whole. */
  lemma {:induction false} MatchAtLongest(p: Pattern, s: string, m: nat)
    requires Unambiguous(p) && m <= |s| && Matches(p, s[..m])
    ensures MatchAt(p, s).Some? && m <= MatchAt(p, s).value
    decreases |p|
  {
    if p != [] {
      var n: nat :| Splits(p, s[..m], n);
      var k, run := p[0].class_, RunLength(p[0].class_, s);
      assert s[..m][..n] == s[..n] && s[..m][n..] == s[n..][..m - n];
      assert n <= run;
      assert forall i :: 0 <= i < run ==> Has(k, s[i]) by {
        assert forall i :: 0 <= i < run ==> s[..run][i] == s[i];
      }
      assert Unambiguous(p[1..]) by {
        assert forall i :: 0 <= i < |p| - 1 ==> p[1..][i] == p[i + 1];
      }
      MatchAtLongest(p[1..], s[n..], m - n);
      if p[0].more && |p| > 1 {
        FirstCharacter(p[1..], s[n..m]);
        assert n == run;
      }
      if |p| == 1 {
        assert p[1..] == [] && MatchAt(p[1..], s[run..]) == Some(0);
      }
    }
  }

  // ---------------------------------------------------------------- replacing

  /** ReplaceAllString: the leftmost match, then on from its end. */
  function ReplaceAll(p: Pattern, s: string): string
    decreases |s|
  {
    if s == "" then ""
    else
      var r := MatchAt(p, s);
      if r.Some? && 0 < r.value <= |s| then MARK + ReplaceAll(p, s[r.value..])
      else [s[0]] + ReplaceAll(p, s[1..])
  }

  function RedactWith(patterns: seq<Pattern>, s: string): string
    decreases |patterns|
  {
    if patterns == [] then s
    else ReplaceAll(patterns[|patterns| - 1], RedactWith(patterns[..|patterns| - 1], s))
  }

  method Redact(text: string) returns (s: string)
    ensures s == RedactWith(PATTERNS, text)
  {
    s := text;
    for i := 0 to |PATTERNS|
      invariant s == RedactWith(PATTERNS[..i], text)
    {
      assert PATTERNS[..i + 1][..i] == PATTERNS[..i];
      s := ReplaceAll(PATTERNS[i], s);
    }
    assert PATTERNS[..|PATTERNS|] == PATTERNS;
  }

  // ---------------------------------------------------------------- words of a safe pattern

  function MinLength(p: Pattern): nat {
    if p == [] then 0 else p[0].min + MinLength(p[1..])
  }

  /** Words of the pattern are longer than the mark's text and free of its brackets. */
  predicate Safe(p: Pattern) {
    MinLength(p) > |MARK| - 2
    && forall i :: 0 <= i < |p| ==> !Has(p[i].class_, '[') && !Has(p[i].class_, ']')
  }

  lemma {:induction false} WordsAreSafe(p: Pattern, s: string)
    requires Matches(p, s)
    requires forall i :: 0 <= i < |p| ==> !Has(p[i].class_, '[') && !Has(p[i].class_, ']')
    ensures |s| >= MinLength(p) && '[' !in s && ']' !in s
    decreases |p|
  {
    if p != [] {
      var n: nat :| Splits(p, s, n);
      WordsAreSafe(p[1..], s[n..]);
      assert s == s[..n] + s[n..];
    }
  }

  lemma MinLengthAppend(p: Pattern, q: Pattern)
    ensures MinLength(p + q) == MinLength(p) + MinLength(q)
  {
    if p == [] {
      assert p + q == q;
    } else {
      MinLengthAppend(p[1..], q);
      assert (p + q)[1..] == p[1..] + q;
    }
  }

  lemma LiteralLength(s: string)
    ensures MinLength(Literal(s)) == |s|
  {
    if s != "" {
      LiteralLength(s[1..]);
      assert Literal(s)[1..] == Literal(s[1..]);
    }
  }

  lemma OneAtom(a: Atom)
    ensures MinLength([a]) == a.min
  {
    assert [a][1..] == [];
  }

  lemma PatternsAreSafe()
    ensures forall i :: 0 <= i < |PATTERNS| ==> Safe(PATTERNS[i])
  {
    LiteralLength("AKIA");
    OneAtom(Atom(UpperOrDigit, 16, false));
    MinLengthAppend(Literal("AKIA"), [Atom(UpperOrDigit, 16, false)]);
    OneAtom(Atom(AlphaNumeric, 36, true));
    MinLengthAppend(Literal("gh") + [Atom(TokenKind, 1, false)] + Literal("_"), [Atom(AlphaNumeric, 36, true)]);
    OneAtom(Atom(WordOrDash, 10, true));
    MinLengthAppend(Literal("eyJ") + [Atom(WordOrDash, 9, true)] + Literal(".") + [Atom(WordOrDash, 10, true)]
      + Literal("."), [Atom(WordOrDash, 10, true)]);
  }

  lemma PatternsAreUnambiguous()
    ensures forall i :: 0 <= i < |PATTERNS| ==> Unambiguous(PATTERNS[i])
  {
    assert forall i :: 0 <= i < |AWS_KEY| ==> !AWS_KEY[i].more;
    assert forall i :: 0 <= i < |GITHUB_TOKEN| - 1 ==> !GITHUB_TOKEN[i].more;
    assert forall i :: 0 <= i < |WEB_TOKEN| - 1 && WEB_TOKEN[i].more ==> WEB_TOKEN[i + 1] == Atom(Only('.'), 1, false);
    assert Disjoint(WordOrDash, Only('.'));
  }

  // ---------------------------------------------------------------- completeness

  /** As long as no mark appears, the output repeats the input. */
  lemma {:induction false} UnmarkedPrefix(p: Pattern, s: string, m: nat)
    requires m <= |ReplaceAll(p, s)| && '[' !in ReplaceAll(p, s)[..m]
    ensures m <= |s| && ReplaceAll(p, s)[..m] == s[..m]
    decreases |s|
  {
    if m > 0 {
      var out := ReplaceAll(p, s);
      var r := MatchAt(p, s);
      assert out[..m][0] == out[0];
      if !(r.Some? && 0 < r.value <= |s|) {
        assert out[1..] == ReplaceAll(p, s[1..]);
        assert out[..m][1..] == out[1..][..m - 1];
        UnmarkedPrefix(p, s[1..], m - 1);
        assert s[..m] == [s[0]] + s[1..][..m - 1];
      }
    }
  }

  /** A word of a safe pattern in MARK + rest lies in the rest. */
  lemma BeyondMark(q: Pattern, rest: string, i: nat, j: nat)
    requires Safe(q) && OccursAt(q, MARK + rest, i, j)
    ensures i >= |MARK| && OccursAt(q, rest, i - |MARK|, j - |MARK|)
  {
    var s := MARK + rest;
    var word := s[i..j];
    WordsAreSafe(q, word);
    assert forall k :: i <= k < j ==> s[k] == word[k - i] && s[k] in word;
    assert s[0] == '[' && s[9] == ']';
    assert word == rest[i - |MARK|..j - |MARK|];
  }

  /** A word in [c] + rest starts at c or lies in the rest. */
  lemma BeyondFirst(q: Pattern, c: char, rest: string, i: nat, j: nat)
    requires OccursAt(q, [c] + rest, i, j) && i > 0
    ensures OccursAt(q, rest, i - 1, j - 1)
  {
    assert ([c] + rest)[i..j] == rest[i - 1..j - 1];
  }

  lemma OccursInSuffix(q: Pattern, s: string, n: nat)
    requires n <= |s| && Occurs(q, s[n..])
    ensures Occurs(q, s)
  {
    var i: nat, j: nat :| OccursAt(q, s[n..], i, j);
    assert s[n..][i..j] == s[n + i..n + j];
    assert OccursAt(q, s, n + i, n + j);
  }

  /** A word at the start of the output, where nothing was replaced, is a word of the input. */
  lemma WordAtStart(p: Pattern, q: Pattern, s: string, j: nat)
    requires Safe(q) && OccursAt(q, ReplaceAll(p, s), 0, j)
    ensures j <= |s| && Matches(q, s[..j])
  {
    var out := ReplaceAll(p, s);
    assert out[0..j] == out[..j];
    WordsAreSafe(q, out[..j]);
    UnmarkedPrefix(p, s, j);
  }

  /** No occurrence at (i, j) after a pass, if none was there before or the pass looks for it. */
  lemma {:induction false} PassLeavesNone(p: Pattern, q: Pattern, s: string, i: nat, j: nat)
    requires Safe(q) && Safe(p) && (p == q || !Occurs(q, s))
    ensures !OccursAt(q, ReplaceAll(p, s), i, j)
    decreases |s|
  {
    if OccursAt(q, ReplaceAll(p, s), i, j) {
      NotAWord(p, q, s, i, j);
    }
  }

  lemma {:induction false} NotAWord(p: Pattern, q: Pattern, s: string, i: nat, j: nat)
    requires Safe(q) && Safe(p) && (p == q || !Occurs(q, s))
    requires OccursAt(q, ReplaceAll(p, s), i, j)
    ensures false
    decreases |s|
  {
    var out := ReplaceAll(p, s);
    if s == "" {
      WordsAreSafe(q, out[i..j]);
      assert false;
    } else {
      var r := MatchAt(p, s);
      if r.Some? && 0 < r.value <= |s| {
        NoneInSuffix(q, s, r.value);
        BeyondMark(q, ReplaceAll(p, s[r.value..]), i, j);
        NotAWord(p, q, s[r.value..], i - |MARK|, j - |MARK|);
      } else if i > 0 {
        NoneInSuffix(q, s, 1);
        BeyondFirst(q, s[0], ReplaceAll(p, s[1..]), i, j);
        NotAWord(p, q, s[1..], i - 1, j - 1);
      } else {
        WordAtStart(p, q, s, j);
        FirstWord(p, q, s, j);
        assert false;
      }
    }
  }

  lemma NoneInSuffix(q: Pattern, s: string, n: nat)
    requires n <= |s|
    ensures !Occurs(q, s) ==> !Occurs(q, s[n..])
  {
    if Occurs(q, s[n..]) { OccursInSuffix(q, s, n); }
  }

  /** Where the scan found nothing at the start, no word of its pattern starts there. */
  lemma FirstWord(p: Pattern, q: Pattern, s: string, j: nat)
    requires Safe(p) && j <= |s| && Matches(q, s[..j])
    requires p == q || !Occurs(q, s)
    ensures p == q && MatchAt(p, s).Some? && 0 < MatchAt(p, s).value <= |s|
  {
    assert s[0..j] == s[..j];
    assert OccursAt(q, s, 0, j);
    MatchAtComplete(p, s, j);
    MatchAtSound(p, s);
    WordsAreSafe(p, s[..MatchAt(p, s).value]);
  }

  /** Redaction is complete: after all passes no substring matches any of the patterns. */
  lemma {:induction false} RedactionComplete(patterns: seq<Pattern>, s: string, k: nat)
    requires forall i :: 0 <= i < |patterns| ==> Safe(patterns[i])
    requires k < |patterns|
    ensures !Occurs(patterns[k], RedactWith(patterns, s))
    decreases |patterns|
  {
    var n := |patterns| - 1;
    var before := RedactWith(patterns[..n], s);
    if k < n {
      RedactionComplete(patterns[..n], s, k);
    }
    forall i: nat, j: nat ensures !OccursAt(patterns[k], ReplaceAll(patterns[n], before), i, j) {
      PassLeavesNone(patterns[n], patterns[k], before, i, j);
    }
  }

  // ---------------------------------------------------------------- idempotence

  lemma {:induction false} NothingToReplace(p: Pattern, s: string)
    requires !Occurs(p, s)
    ensures ReplaceAll(p, s) == s
    decreases |s|
  {
    if s != "" {
      MatchOccurs(p, s);
      NoneInSuffix(p, s, 1);
      NothingToReplace(p, s[1..]);
      assert [s[0]] + s[1..] == s;
    }
  }

  lemma MatchOccurs(p: Pattern, s: string)
    ensures MatchAt(p, s).Some? ==> Occurs(p, s)
  {
    MatchAtSound(p, s);
    var r := MatchAt(p, s);
    if r.Some? {
      assert s[0..r.value] == s[..r.value];
      assert OccursAt(p, s, 0, r.value);
    }
  }

  lemma {:induction false} NothingToRedact(patterns: seq<Pattern>, s: string)
    requires forall k :: 0 <= k < |patterns| ==> !Occurs(patterns[k], s)
    ensures RedactWith(patterns, s) == s
    decreases |patterns|
  {
    if patterns != [] {
      NothingToRedact(patterns[..|patterns| - 1], s);
      NothingToReplace(patterns[|patterns| - 1], s);
    }
  }

  /** A text is left as it is exactly when it holds no secret. */
  lemma RedactFixpoints(s: string)
    ensures RedactWith(PATTERNS, s) == s <==> forall k :: 0 <= k < |PATTERNS| ==> !Occurs(PATTERNS[k], s)
  {
    PatternsAreSafe();
    forall k | 0 <= k < |PATTERNS| ensures !Occurs(PATTERNS[k], RedactWith(PATTERNS, s)) {
      RedactionComplete(PATTERNS, s, k);
    }
    if forall k :: 0 <= k < |PATTERNS| ==> !Occurs(PATTERNS[k], s) {
      NothingToRedact(PATTERNS, s);
    }
  }

  /** Redacting twice is redacting once: replay's second redaction changes nothing that
      capture stored. */
  lemma RedactIdempotent(s: string)
    ensures RedactWith(PATTERNS, RedactWith(PATTERNS, s)) == RedactWith(PATTERNS, s)
  {
    PatternsAreSafe();
    forall k | 0 <= k < |PATTERNS| ensures !Occurs(PATTERNS[k], RedactWith(PATTERNS, s)) {
      RedactionComplete(PATTERNS, s, k);
    }
    NothingToRedact(PATTERNS, RedactWith(PATTERNS, s));
  }

  // ---------------------------------------------------------------- only secrets go

  /** A text cut into single characters that stay and secrets that go. */
  datatype Piece = Kept(c: char) | Secret(word: string)

  function Original(pieces: seq<Piece>): string {
    if pieces == [] then ""
    else (match pieces[0] case Kept(c) => [c] case Secret(word) => word) + Original(pieces[1..])
  }

  function Marked(pieces: seq<Piece>): string {
    if pieces == [] then ""
    else (match pieces[0] case Kept(c) => [c] case Secret(_) => MARK) + Marked(pieces[1..])
  }

  lemma Prepend(x: Piece, pieces: seq<Piece>)
    ensures Original([x] + pieces) == (match x case Kept(c) => [c] case Secret(word) => word) + Original(pieces)
    ensures Marked([x] + pieces) == (match x case Kept(c) => [c] case Secret(_) => MARK) + Marked(pieces)
  {
    assert ([x] + pieces)[1..] == pieces;
  }

  /** A pass replaces words of its pattern by the mark and keeps everything else. */
  lemma {:induction false} OnlySecretsReplaced(p: Pattern, s: string) returns (pieces: seq<Piece>)
    ensures s == Original(pieces)
    ensures ReplaceAll(p, s) == Marked(pieces)
    ensures forall i :: 0 <= i < |pieces| && pieces[i].Secret? ==> Matches(p, pieces[i].word)
    decreases |s|
  {
    hide Original, Marked, Matches, MatchAt;
    if s == "" {
      pieces := [];
      NoPieces();
    } else {
      var r := MatchAt(p, s);
      if r.Some? && 0 < r.value <= |s| {
        MatchAtSound(p, s);
        pieces := OnlySecretsReplaced(p, s[r.value..]);
        assert s == s[..r.value] + s[r.value..];
        Prepend(Secret(s[..r.value]), pieces);
        pieces := [Secret(s[..r.value])] + pieces;
      } else {
        pieces := OnlySecretsReplaced(p, s[1..]);
        assert s == [s[0]] + s[1..];
        Prepend(Kept(s[0]), pieces);
        pieces := [Kept(s[0])] + pieces;
      }
    }
  }

  lemma NoPieces()
    ensures Original([]) == "" && Marked([]) == ""
  {
  }
}
