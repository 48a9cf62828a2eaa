/** What the three patterns look for, character by character, and what redaction makes of a text
    in those terms (internal/secrets/filter.go:5-16). */
module SecretShapes {
  import opened Redaction

  predicate UrlSafe(s: string) {
    forall i :: 0 <= i < |s| ==>
      'A' <= s[i] <= 'Z' || 'a' <= s[i] <= 'z' || '0' <= s[i] <= '9' || s[i] == '_' || s[i] == '-'
  }

  /** "AKIA" and sixteen upper-case letters or digits. */
  predicate IsAwsKey(s: string) {
    && |s| == 20 && s[..4] == "AKIA"
    && forall i :: 4 <= i < 20 ==> 'A' <= s[i] <= 'Z' || '0' <= s[i] <= '9'
  }

  /** "gh", one of p, o, u, s, r, an underscore, and at least 36 letters or digits. */
  predicate IsGithubToken(s: string) {
    && |s| >= 40 && s[..2] == "gh" && s[2] in {'p', 'o', 'u', 's', 'r'} && s[3] == '_'
    && forall i :: 4 <= i < |s| ==> 'A' <= s[i] <= 'Z' || 'a' <= s[i] <= 'z' || '0' <= s[i] <= '9'
  }

  /** "eyJ" and three runs of letters, digits, underscores and dashes with dots between them. */
  ghost predicate IsWebToken(s: string) {
    exists x, y, z :: WebToken(s, x, y, z)
  }

  predicate WebToken(s: string, x: string, y: string, z: string) {
    && s == "eyJ" + x + "." + y + "." + z
    && |x| >= 9 && |y| >= 10 && |z| >= 10 && UrlSafe(x) && UrlSafe(y) && UrlSafe(z)
  }

  ghost predicate IsSecret(s: string) {
    IsAwsKey(s) || IsGithubToken(s) || IsWebToken(s)
  }

  // ---------------------------------------------------------------- words of a concatenation

  /** Words in a row are a word of the patterns in a row. */
  lemma {:induction false} Join(p: Pattern, q: Pattern, s: string, t: string)
    requires Matches(p, s) && Matches(q, t)
    ensures Matches(p + q, s + t)
    decreases |p|
  {
    if p == [] {
      assert p + q == q && s + t == t;
    } else {
      var n: nat :| Splits(p, s, n);
      Join(p[1..], q, s[n..], t);
      assert (p + q)[1..] == p[1..] + q;
      assert (s + t)[..n] == s[..n] && (s + t)[n..] == s[n..] + t;
      assert Splits(p + q, s + t, n);
    }
  }

  /** And every such word falls apart that way. */
  lemma {:induction false} Cut(p: Pattern, q: Pattern, s: string) returns (front: string, back: string)
    requires Matches(p + q, s)
    ensures s == front + back && Matches(p, front) && Matches(q, back)
    decreases |p|
  {
    hide Fits;
    if p == [] {
      assert p + q == q;
      front, back := "", s;
    } else {
      var m := FirstCut(p, q, s);
      var rest, end := Cut(p[1..], q, s[m..]);
      front, back := s[..m] + rest, end;
      assert front[..m] == s[..m] && front[m..] == rest;
      assert Splits(p, front, m);
    }
  }

  lemma FirstCut(p: Pattern, q: Pattern, s: string) returns (m: nat)
    requires p != [] && Matches(p + q, s)
    ensures m <= |s| && Fits(p[0], s[..m]) && Matches(p[1..] + q, s[m..]) && s == s[..m] + s[m..]
  {
    hide Fits;
    m :| Splits(p + q, s, m);
    assert (p + q)[1..] == p[1..] + q;
  }

  lemma OneAtomWords(a: Atom, s: string)
    ensures Matches([a], s) <==> Fits(a, s)
  {
    if Matches([a], s) { OneAtomFits([a], s); }
    if Fits(a, s) {
      assert s[..|s|] == s && s[|s|..] == "" && [a][1..] == [];
      assert Splits([a], s, |s|);
    }
  }

  lemma OneAtomFits(p: Pattern, s: string)
    requires |p| == 1 && Matches(p, s)
    ensures Fits(p[0], s)
  {
    var n: nat :| Splits(p, s, n);
    NoAtoms(p[1..], s[n..]);
    assert s[..n] == s;
  }

  lemma NoAtoms(p: Pattern, s: string)
    requires p == [] && Matches(p, s)
    ensures s == ""
  {
  }

  lemma {:induction false} LiteralWords(text: string, s: string)
    ensures Matches(Literal(text), s) <==> s == text
    decreases |text|
  {
    if text == "" {
      assert Literal(text) == [];
    } else {
      var p, rest := Literal(text), Literal(text[1..]);
      var a := Atom(Only(text[0]), 1, false);
      assert p == [a] + rest && text == [text[0]] + text[1..];
      if Matches(p, s) {
        var front, back := Cut([a], rest, s);
        OneAtomWords(a, front);
        LiteralWords(text[1..], back);
        assert front == [text[0]];
      }
      if s == text {
        OneAtomWords(a, [text[0]]);
        LiteralWords(text[1..], text[1..]);
        Join([a], rest, [text[0]], text[1..]);
      }
    }
  }

  // ---------------------------------------------------------------- the three patterns

  lemma AwsKeyIff(s: string)
    ensures Matches(AWS_KEY, s) <==> IsAwsKey(s)
  {
    hide Matches, Literal;
    var a := Atom(UpperOrDigit, 16, false);
    if Matches(AWS_KEY, s) {
      var front, back := Cut(Literal("AKIA"), [a], s);
      LiteralWords("AKIA", front);
      OneAtomWords(a, back);
      assert forall i :: 4 <= i < 20 ==> s[i] == back[i - 4];
    }
    if IsAwsKey(s) {
      LiteralWords("AKIA", s[..4]);
      OneAtomWords(a, s[4..]);
      Join(Literal("AKIA"), [a], s[..4], s[4..]);
      assert s == s[..4] + s[4..];
    }
  }

  lemma GithubTokenIff(s: string)
    ensures Matches(GITHUB_TOKEN, s) <==> IsGithubToken(s)
  {
    hide Matches, Literal;
    var kind, rest := Atom(TokenKind, 1, false), Atom(AlphaNumeric, 36, true);
    if Matches(GITHUB_TOKEN, s) {
      var abc, d := Cut(Literal("gh") + [kind] + Literal("_"), [rest], s);
      var ab, c := Cut(Literal("gh") + [kind], Literal("_"), abc);
      var a, b := Cut(Literal("gh"), [kind], ab);
      LiteralWords("gh", a);
      OneAtomWords(kind, b);
      LiteralWords("_", c);
      OneAtomWords(rest, d);
      assert b == [b[0]] && s == "gh" + b + "_" + d;
      assert forall i :: 4 <= i < |s| ==> s[i] == d[i - 4];
    }
    if IsGithubToken(s) {
      LiteralWords("gh", "gh");
      OneAtomWords(kind, [s[2]]);
      LiteralWords("_", "_");
      OneAtomWords(rest, s[4..]);
      Join(Literal("gh"), [kind], "gh", [s[2]]);
      Join(Literal("gh") + [kind], Literal("_"), "gh" + [s[2]], "_");
      Join(Literal("gh") + [kind] + Literal("_"), [rest], "gh" + [s[2]] + "_", s[4..]);
      assert s == "gh" + [s[2]] + "_" + s[4..];
    }
  }

  lemma WebTokenIff(s: string)
    ensures Matches(WEB_TOKEN, s) <==> IsWebToken(s)
  {
    hide Matches, Literal;
    var head, dot := Literal("eyJ"), Literal(".");
    var short, long := Atom(WordOrDash, 9, true), Atom(WordOrDash, 10, true);
    LiteralWords("eyJ", "eyJ");
    LiteralWords(".", ".");
    if Matches(WEB_TOKEN, s) {
      var abcde, z := Cut(head + [short] + dot + [long] + dot, [long], s);
      var abcd, e := Cut(head + [short] + dot + [long], dot, abcde);
      var abc, y := Cut(head + [short] + dot, [long], abcd);
      var ab, c := Cut(head + [short], dot, abc);
      var a, x := Cut(head, [short], ab);
      LiteralWords("eyJ", a);
      LiteralWords(".", c);
      LiteralWords(".", e);
      OneAtomWords(short, x);
      OneAtomWords(long, y);
      OneAtomWords(long, z);
      assert WebToken(s, x, y, z);
    }
    if x, y, z :| WebToken(s, x, y, z) {
      OneAtomWords(short, x);
      OneAtomWords(long, y);
      OneAtomWords(long, z);
      Join(head, [short], "eyJ", x);
      Join(head + [short], dot, "eyJ" + x, ".");
      Join(head + [short] + dot, [long], "eyJ" + x + ".", y);
      Join(head + [short] + dot + [long], dot, "eyJ" + x + "." + y, ".");
      Join(head + [short] + dot + [long] + dot, [long], "eyJ" + x + "." + y + ".", z);
    }
  }

  lemma SecretIff(s: string)
    ensures IsSecret(s) <==> exists k :: 0 <= k < |PATTERNS| && Matches(PATTERNS[k], s)
  {
    hide Matches, IsAwsKey, IsGithubToken, IsWebToken;
    AwsKeyIff(s);
    GithubTokenIff(s);
    WebTokenIff(s);
    assert PATTERNS[0] == AWS_KEY && PATTERNS[1] == GITHUB_TOKEN && PATTERNS[2] == WEB_TOKEN;
  }

  // ---------------------------------------------------------------- what redaction does

  /** Some substring is a key or a token. */
  ghost predicate HoldsSecret(s: string) {
    exists i, j :: SecretAt(s, i, j)
  }

  ghost predicate SecretAt(s: string, i: nat, j: nat) {
    i <= j <= |s| && IsSecret(s[i..j])
  }

  lemma HoldsSecretIff(s: string)
    ensures HoldsSecret(s) <==> exists k :: 0 <= k < |PATTERNS| && Occurs(PATTERNS[k], s)
  {
    hide Matches, IsSecret;
    if i: nat, j: nat :| SecretAt(s, i, j) {
      SecretIff(s[i..j]);
      var k :| 0 <= k < |PATTERNS| && Matches(PATTERNS[k], s[i..j]);
      assert OccursAt(PATTERNS[k], s, i, j);
    }
    if k :| 0 <= k < |PATTERNS| && Occurs(PATTERNS[k], s) {
      var i: nat, j: nat :| OccursAt(PATTERNS[k], s, i, j);
      SecretIff(s[i..j]);
      assert SecretAt(s, i, j);
    }
  }

  /** No key and no token is left in a redacted text, and a text without one stays as it is. */
  lemma NoSecretIsLeft(s: string)
    ensures !HoldsSecret(RedactWith(PATTERNS, s))
    ensures RedactWith(PATTERNS, s) == s <==> !HoldsSecret(s)
  {
    hide RedactWith, Occurs, HoldsSecret;
    var out := RedactWith(PATTERNS, s);
    RedactFixpoints(s);
    RedactIdempotent(s);
    RedactFixpoints(out);
    HoldsSecretIff(s);
    HoldsSecretIff(out);
  }

  /** A text that is one key becomes one mark. */
  lemma KeyBecomesMark(s: string)
    requires IsAwsKey(s)
    ensures RedactWith(PATTERNS, s) == "[REDACTED]"
  {
    hide Matches, Literal, MatchAt;
    PatternsAreUnambiguous();
    AwsKeyIff(s);
    assert s[..|s|] == s && s[|s|..] == "";
    assert PATTERNS[0] == AWS_KEY;
    MatchAtLongest(AWS_KEY, s, |s|);
    MatchAtSound(AWS_KEY, s);
    assert ReplaceAll(AWS_KEY, "") == "";
    assert ReplaceAll(AWS_KEY, s) == MARK;
    hide ReplaceAll;
    ThreePasses(s);
    PatternsAreSafe();
    MarkStays(PATTERNS[1]);
    MarkStays(PATTERNS[2]);
  }

  lemma ThreePasses(s: string)
    ensures RedactWith(PATTERNS, s) == ReplaceAll(PATTERNS[2], ReplaceAll(PATTERNS[1], ReplaceAll(PATTERNS[0], s)))
  {
    hide ReplaceAll;
    assert PATTERNS[..2][..1] == PATTERNS[..1] && PATTERNS[..1][..0] == [];
    assert RedactWith(PATTERNS[..1], s) == ReplaceAll(PATTERNS[0], s);
    assert RedactWith(PATTERNS[..2], s) == ReplaceAll(PATTERNS[1], RedactWith(PATTERNS[..1], s));
  }

  lemma MarkStays(q: Pattern)
    requires Safe(q)
    ensures ReplaceAll(q, MARK) == MARK
  {
    if Occurs(q, MARK) {
      var i: nat, j: nat :| OccursAt(q, MARK, i, j);
      assert MARK + "" == MARK;
      BeyondMark(q, "", i, j);
      WordsAreSafe(q, MARK[i..j]);
      assert false;
    }
    NothingToReplace(q, MARK);
  }
}
