/** The registration check `EMAIL_REGEX.match(email)` with the pattern
    `[^@]+@[^@]+\.[^@]+`. `match` anchors the pattern at the start of the
    string only, so the check accepts every string that has SOME prefix the
    pattern matches in full; whatever follows that prefix is ignored.

    `PrefixMatch` is the pattern's meaning written with explicit split points;
    `Match` is a left-to-right scan that decides it, and `MatchIsPrefixMatch`
    proves the two agree on every string. */
module EmailRegex {

  /** No character of `s` is '@'. The class `[^@]` admits every other
      character, newline and '.' included. */
  predicate NoAt(s: string) {
    forall i :: 0 <= i < |s| ==> s[i] != '@'
  }

  /** `t` splits as x + "@" + y + "." + z with x == t[..a], y == t[a+1..b]
      and z == t[b+1..], each non-empty and free of '@'. */
  ghost predicate SplitsAt(t: string, a: int, b: int) {
    && 0 < a && a + 1 < b && b + 1 < |t|
    && NoAt(t[..a]) && t[a] == '@'
    && NoAt(t[a + 1..b]) && t[b] == '.'
    && NoAt(t[b + 1..])
  }

  /** `t` is matched in full by `[^@]+@[^@]+\.[^@]+`. */
  ghost predicate FullMatch(t: string) {
    exists a, b :: SplitsAt(t, a, b)
  }

  /** What `re.match` decides: some prefix of `s` is matched in full. */
  ghost predicate PrefixMatch(s: string) {
    exists k :: 0 <= k <= |s| && FullMatch(s[..k])
  }

  /** Index of the first '@' in `s`, or |s| when there is none. */
  function FirstAt(s: string): (i: nat)
    ensures i <= |s|
    ensures NoAt(s[..i])
    ensures i < |s| ==> s[i] == '@'
  {
    if |s| == 0 || s[0] == '@' then 0
    else
      var j := FirstAt(s[1..]);
      assert forall k :: 1 <= k < j + 1 ==> s[k] == s[1..][k - 1];
      1 + j
  }

  /** `t` starts with a possibly empty '@'-free run, then a '.', then one
      more character other than '@'. */
  predicate DotTail(t: string)
    decreases |t|
  {
    |t| >= 2 && t[0] != '@' && ((t[0] == '.' && t[1] != '@') || DotTail(t[1..]))
  }

  /** The scan: the local part runs up to the first '@' and must be
      non-empty; the domain must begin with a character other than '@'
      and continue as a `DotTail`. */
  predicate Match(s: string) {
    var a := FirstAt(s);
    0 < a && a + 2 <= |s| && s[a + 1] != '@' && DotTail(s[a + 2..])
  }

  /** `t[b]` is a '.' that follows an '@'-free run from the start of `t`
      and is followed by a character other than '@'. */
  ghost predicate DotAt(t: string, b: int) {
    0 <= b && b + 1 < |t| && NoAt(t[..b + 2]) && t[b] == '.'
  }

  lemma {:induction false} DotTailWitness(t: string)
    ensures DotTail(t) <==> exists b :: DotAt(t, b)
    decreases |t|
  {
    if DotTail(t) {
      if t[0] == '.' && t[1] != '@' {
        assert DotAt(t, 0);
      } else {
        DotTailWitness(t[1..]);
        var b :| DotAt(t[1..], b);
        assert t[..b + 3] == [t[0]] + t[1..][..b + 2];
        assert DotAt(t, b + 1);
      }
    }
    if exists b :: DotAt(t, b) {
      var b :| DotAt(t, b);
      if b > 0 {
        assert t[1..][..b + 1] == t[1..b + 2];
        assert DotAt(t[1..], b - 1);
        DotTailWitness(t[1..]);
      }
    }
  }

  /** The first '@' is the only place the local part can end. */
  lemma FirstAtIsUnique(s: string, a: int)
    requires 0 <= a < |s| && NoAt(s[..a]) && s[a] == '@'
    ensures FirstAt(s) == a
  {
    var i := FirstAt(s);
    assert i >= a;
  }

  lemma MatchImpliesPrefixMatch(s: string)
    requires Match(s)
    ensures PrefixMatch(s)
  {
    var a := FirstAt(s);
    var t := s[a + 2..];
    DotTailWitness(t);
    var d :| DotAt(t, d);
    var b := a + 2 + d;
    var k := b + 2;
    var p := s[..k];
    assert p[..a] == s[..a];
    assert forall i :: a + 1 <= i < b + 2 ==> s[i] != '@' by {
      forall i | a + 1 <= i < b + 2 ensures s[i] != '@' {
        if i > a + 1 { assert s[i] == t[..d + 2][i - a - 2]; }
      }
    }
    assert SplitsAt(p, a, b);
    assert FullMatch(p);
  }

  lemma PrefixMatchImpliesMatch(s: string)
    requires PrefixMatch(s)
    ensures Match(s)
  {
    var k :| 0 <= k <= |s| && FullMatch(s[..k]);
    var a, b :| SplitsAt(s[..k], a, b);
    assert s[..k][..a] == s[..a];
    FirstAtIsUnique(s, a);
    DomainIsDotTail(s, k, a, b);
    DotTailWitness(s[a + 2..]);
  }

  /** After the '@' of a full match of a prefix, the domain starts with a
      character other than '@' and its '.' sits where `DotAt` wants it. */
  lemma DomainIsDotTail(s: string, k: int, a: int, b: int)
    requires 0 <= k <= |s| && SplitsAt(s[..k], a, b)
    ensures s[a + 1] != '@'
    ensures DotAt(s[a + 2..], b - a - 2)
  {
    var p := s[..k];
    assert s[a + 1] == p[a + 1..b][0];
    var t := s[a + 2..];
    var d := b - a - 2;
    forall i | 0 <= i < d + 2 ensures t[i] != '@' {
      if i < d { assert t[i] == p[a + 1..b][i + 1]; }
      else if i == d + 1 { assert t[i] == p[b + 1..][0]; }
    }
    assert t[b - a - 2] == p[b];
  }

  /** The scan decides exactly the prefix semantics of `re.match`. */
  lemma MatchIsPrefixMatch(s: string)
    ensures Match(s) <==> PrefixMatch(s)
  {
    if Match(s) { MatchImpliesPrefixMatch(s); }
    if PrefixMatch(s) { PrefixMatchImpliesMatch(s); }
  }

  /** A full match never ends in '@'. */
  lemma SplitEndsWithoutAt(t: string, a: int, b: int)
    requires SplitsAt(t, a, b)
    ensures t[|t| - 1] != '@'
  {
    assert t[|t| - 1] == t[b + 1..][|t| - b - 2];
  }

  /** Text after a matching prefix does not matter, even text a full match
      would refuse: "a@b.c@" is accepted although it is not itself of the
      pattern's shape. */
  lemma TrailingTextAccepted()
    ensures PrefixMatch("a@b.c@")
    ensures !FullMatch("a@b.c@")
  {
    var s := "a@b.c@";
    var p := s[..5];
    assert p == "a@b.c";
    assert p[..1] == "a" && p[2..3] == "b" && p[4..] == "c";
    assert SplitsAt(p, 1, 3);
    assert FullMatch(s[..5]);
    forall a, b | SplitsAt(s, a, b) ensures false {
      SplitEndsWithoutAt(s, a, b);
      assert false;
    }
  }

  /** Each of the three runs must be non-empty and '@'-free. */
  lemma MalformedRejected()
    ensures !PrefixMatch("@b.c")
    ensures !PrefixMatch("a@.c")
    ensures !PrefixMatch("a@b.")
    ensures !PrefixMatch("a@@b.c")
    ensures !PrefixMatch("ab.c")
  {
    MatchIsPrefixMatch("@b.c");
    MatchIsPrefixMatch("a@.c");
    MatchIsPrefixMatch("a@b.");
    MatchIsPrefixMatch("a@@b.c");
    MatchIsPrefixMatch("ab.c");
  }
}
