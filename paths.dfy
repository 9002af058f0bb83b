/**
 * POSIX path helpers with the behaviour of Python's `posixpath`:
 * `join`, `basename`, `dirname` and `str.rstrip('/')`.
 * Paths are plain strings; nothing is normalised.
 */
module Paths {

  predicate StartsWithSlash(s: string) { |s| > 0 && s[0] == '/' }

  predicate EndsWithSlash(s: string) { |s| > 0 && s[|s| - 1] == '/' }

  predicate NoSlash(s: string) { forall i :: 0 <= i < |s| ==> s[i] != '/' }

  predicate AllSlashes(s: string) { forall i :: 0 <= i < |s| ==> s[i] == '/' }

  /** `os.path.join(a, b)`: an absolute `b` replaces `a`; otherwise one separator
      is inserted unless `a` is empty or already ends in one. */
  function Join(a: string, b: string): (r: string)
    ensures |b| <= |r| && r[|r| - |b|..] == b
    ensures StartsWithSlash(b) ==> r == b
    ensures !StartsWithSlash(b) ==> a <= r
    ensures a != "" && !EndsWithSlash(a) && !StartsWithSlash(b) ==> |r| == |a| + 1 + |b| && r[|a|] == '/'
  {
    if StartsWithSlash(b) then b
    else if a == "" || EndsWithSlash(a) then a + b
    else a + "/" + b
  }

  /** `s.rstrip('/')`: drops every trailing separator and nothing else. */
  function RStripSlashes(s: string): (r: string)
    ensures r <= s
    ensures !EndsWithSlash(r)
    ensures AllSlashes(s[|r|..])
    decreases |s|
  {
    if EndsWithSlash(s) then RStripSlashes(s[..|s| - 1]) else s
  }

  /** The index just after the last separator of `p`, 0 when there is none
      (`p.rfind('/') + 1`). */
  function AfterLastSlash(p: string): (i: nat)
    ensures i <= |p|
    ensures i > 0 ==> p[i - 1] == '/'
    ensures NoSlash(p[i..])
    decreases |p|
  {
    if |p| == 0 then 0
    else if p[|p| - 1] == '/' then |p|
    else AfterLastSlash(p[..|p| - 1])
  }

  /** `os.path.basename(p)`: everything after the last separator. */
  function Basename(p: string): (r: string)
    ensures NoSlash(r)
    ensures |r| <= |p| && p[|p| - |r|..] == r
  {
    p[AfterLastSlash(p)..]
  }

  /** `os.path.dirname(p)`: everything before the last separator, with trailing
      separators removed unless the head is made of separators only. */
  function Dirname(p: string): (r: string)
    ensures r <= p
  {
    var head := p[..AfterLastSlash(p)];
    if head != "" && !AllSlashes(head) then RStripSlashes(head) else head
  }

  /** Stripping is idempotent: a stripped string has nothing left to strip. */
  lemma RStripSlashesIdempotent(s: string)
    ensures RStripSlashes(RStripSlashes(s)) == RStripSlashes(s)
  {
  }

  /** The stripped string is the longest prefix not ending in a separator:
      any such prefix that leaves only separators behind equals it. */
  lemma {:induction false} RStripSlashesUnique(s: string, t: string)
    requires t <= s && !EndsWithSlash(t) && AllSlashes(s[|t|..])
    ensures RStripSlashes(s) == t
    decreases |s|
  {
    if EndsWithSlash(s) {
      assert s[..|s| - 1][|t|..] == s[|t|..|s| - 1];
      RStripSlashesUnique(s[..|s| - 1], t);
    }
  }

  /** Joining a relative component onto a non-empty directory that does not end in
      a separator inserts exactly one separator. */
  lemma JoinRelative(a: string, b: string)
    requires a != "" && !EndsWithSlash(a) && !StartsWithSlash(b)
    ensures Join(a, b) == a + "/" + b
  {
  }

  /** The last separator of `a + "/" + b` is the inserted one when `b` has none. */
  lemma {:induction false} AfterLastSlashOfJoin(a: string, b: string)
    requires NoSlash(b)
    ensures AfterLastSlash(a + "/" + b) == |a| + 1
  {
    var p := a + "/" + b;
    assert p[|a|] == '/';
    assert p[|a| + 1..] == b;
  }

  /** A file joined onto a directory has that file as its base name and that
      directory as its dirname. */
  lemma {:induction false} JoinSplits(a: string, b: string)
    requires a != "" && !EndsWithSlash(a) && NoSlash(b)
    ensures Basename(Join(a, b)) == b
    ensures Dirname(Join(a, b)) == a
  {
    var p := Join(a, b);
    if |b| > 0 {
      assert b[0] != '/';
    }
    JoinRelative(a, b);
    AfterLastSlashOfJoin(a, b);
    assert p[|a| + 1..] == b;
    var head := p[..|a| + 1];
    assert head == a + "/";
    assert head[|a| - 1] == a[|a| - 1] != '/';
    assert !AllSlashes(head);
    assert head[..|head| - 1] == a;
    assert RStripSlashes(head) == RStripSlashes(a) == a;
  }

  /** Joining a non-empty component without separators onto a plain directory
      gives a plain directory again. */
  lemma JoinStaysPlain(a: string, b: string)
    requires a != "" && !EndsWithSlash(a) && b != "" && NoSlash(b)
    ensures Join(a, b) == a + "/" + b
    ensures Join(a, b) != "" && !EndsWithSlash(Join(a, b))
  {
    assert b[0] != '/';
    var p := a + "/" + b;
    assert p[|p| - 1] == b[|b| - 1];
  }

  lemma NoSlashConcat(s: string, t: string)
    requires NoSlash(s) && NoSlash(t)
    ensures NoSlash(s + t)
  {
    var u := s + t;
    forall i | 0 <= i < |u| ensures u[i] != '/' {
      if i >= |s| { assert u[i] == t[i - |s|]; }
    }
  }

  /** Distinct file names joined onto the same directory give distinct paths. */
  lemma JoinInjective(a: string, b1: string, b2: string)
    requires a != "" && !EndsWithSlash(a) && !StartsWithSlash(b1) && !StartsWithSlash(b2)
    requires b1 != b2
    ensures Join(a, b1) != Join(a, b2)
  {
    JoinRelative(a, b1);
    JoinRelative(a, b2);
    var p1, p2 := Join(a, b1), Join(a, b2);
    assert p1[|a| + 1..] == b1;
    assert p2[|a| + 1..] == b2;
  }
}
