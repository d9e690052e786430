/** Finite sets of equally long bit strings as a binary trie, walked in the order of their bits. */
module OneWireTrie {
  type Bits = seq<bool>

  /** `a` comes before `b`: they part at a bit that is clear in `a` and set in `b`. */
  ghost predicate Before(a: Bits, b: Bits) {
    exists i :: PartsAt(a, b, i)
  }

  predicate PartsAt(a: Bits, b: Bits, i: int) {
    0 <= i < |a| && i < |b| && a[..i] == b[..i] && !a[i] && b[i]
  }

  predicate Uniform(D: set<Bits>, n: nat) {
    forall d :: d in D ==> |d| == n
  }

  /** Some string of `D` starts with `p`. */
  predicate Occurs(D: set<Bits>, p: Bits) {
    exists d :: d in D && p <= d
  }

  /** Both continuations of `p` occur. */
  predicate Forks(D: set<Bits>, p: Bits) {
    Occurs(D, p + [false]) && Occurs(D, p + [true])
  }

  /** The last place, counted from 1, among the first `k` where `r` takes the clear side of a fork; 0 if none. */
  function LastZero(D: set<Bits>, r: Bits, k: nat): (z: nat)
    requires k <= |r|
    ensures z <= k
    ensures z > 0 ==> !r[z - 1] && Forks(D, r[..z - 1])
    ensures forall i :: z <= i < k ==> r[i] || !Forks(D, r[..i])
  {
    if k == 0 then 0
    else if !r[k - 1] && Forks(D, r[..k - 1]) then k
    else LastZero(D, r, k - 1)
  }

  lemma {:induction false} LastZeroPrefix(D: set<Bits>, r: Bits, s: Bits, k: nat)
    requires k <= |r| && k <= |s| && r[..k] == s[..k]
    ensures LastZero(D, r, k) == LastZero(D, s, k)
  {
    if k > 0 {
      assert r[..k - 1] == r[..k][..k - 1] == s[..k][..k - 1] == s[..k - 1];
      assert r[k - 1] == r[..k][k - 1] == s[..k][k - 1] == s[k - 1];
      LastZeroPrefix(D, r, s, k - 1);
    }
  }

  /** `r` is in `D` and, of those that continue `p`, comes first. */
  ghost predicate LeastUnder(D: set<Bits>, p: Bits, r: Bits) {
    r in D && p <= r && forall d :: d in D && p <= d ==> d == r || Before(r, d)
  }

  ghost predicate First(D: set<Bits>, r: Bits) {
    r in D && forall d :: d in D ==> d == r || Before(r, d)
  }

  /** `s` comes right after `r` in `D`. */
  ghost predicate Follows(D: set<Bits>, r: Bits, s: Bits) {
    s in D && Before(r, s) && forall d :: d in D && Before(r, d) ==> d == s || Before(s, d)
  }

  ghost predicate Last(D: set<Bits>, r: Bits) {
    forall d :: d in D ==> !Before(r, d)
  }

  /** Two different strings of one length part somewhere. */
  lemma {:induction false} Part(a: Bits, b: Bits) returns (i: nat)
    requires |a| == |b| && a != b
    ensures PartsAt(a, b, i) || PartsAt(b, a, i)
  {
    if a[0] != b[0] {
      i := 0;
    } else {
      i := Part(a[1..], b[1..]);
      i := i + 1;
      assert a == [a[0]] + a[1..] && b == [b[0]] + b[1..];
      assert a[..i] == [a[0]] + a[1..][..i - 1] && b[..i] == [b[0]] + b[1..][..i - 1];
    }
  }

  lemma SameBelow(a: Bits, b: Bits, k: nat, i: nat)
    requires i < k <= |a| && k <= |b| && a[..k] == b[..k]
    ensures a[i] == b[i] && a[..i] == b[..i]
  {
    assert a[i] == a[..k][i] && b[i] == b[..k][i];
    assert a[..i] == a[..k][..i] && b[..i] == b[..k][..i];
  }

  lemma NotBothBefore(a: Bits, b: Bits)
    requires Before(a, b)
    ensures !Before(b, a) && a != b
  {
    var i :| PartsAt(a, b, i);
    if Before(b, a) {
      var j :| PartsAt(b, a, j);
      if i < j {
        SameBelow(a, b, j, i);
      } else if j < i {
        SameBelow(a, b, i, j);
      }
    }
  }

  lemma BeforeTrans(a: Bits, b: Bits, c: Bits)
    requires Before(a, b) && Before(b, c)
    ensures Before(a, c)
  {
    var i :| PartsAt(a, b, i);
    var j :| PartsAt(b, c, j);
    var k := if i < j then i else j;
    assert a[..k] == a[..i][..k] == b[..i][..k] == b[..k] == b[..j][..k] == c[..j][..k] == c[..k];
    if i < j {
      assert c[i] == c[..j][i] == b[..j][i] == b[i];
    } else if j < i {
      assert a[j] == a[..i][j] == b[..i][j] == b[j];
    }
    assert PartsAt(a, c, k);
  }

  /** A string that parts from `r` upwards does so at a fork where `r` takes the clear side. */
  lemma PartsAtFork(D: set<Bits>, r: Bits, d: Bits, i: nat)
    requires r in D && d in D && PartsAt(r, d, i)
    ensures Forks(D, r[..i])
  {
    assert r[..i] + [false] <= r;
    assert r[..i] + [true] <= d;
  }

  /** With no fork left where it takes the clear side, a string is the last. */
  lemma NoForkIsLast(D: set<Bits>, r: Bits)
    requires r in D
    ensures LastZero(D, r, |r|) == 0 <==> Last(D, r)
  {
    hide Forks, LastZero;
    var z := LastZero(D, r, |r|);
    if z == 0 {
      forall d | d in D
        ensures !Before(r, d)
      {
        if Before(r, d) {
          var i :| PartsAt(r, d, i);
          PartsAtFork(D, r, d, i);
        }
      }
    } else {
      var d := ForkGoesOn(D, r, z - 1);
      assert Before(r, d);
    }
  }

  lemma ForkGoesOn(D: set<Bits>, r: Bits, i: nat) returns (d: Bits)
    requires i < |r| && !r[i] && Forks(D, r[..i])
    ensures d in D && PartsAt(r, d, i)
  {
    var p := r[..i];
    d :| d in D && p + [true] <= d;
    SetSide(r, d, i);
  }

  lemma SetSide(r: Bits, s: Bits, i: nat)
    requires i < |r| && !r[i] && r[..i] + [true] <= s
    ensures PartsAt(r, s, i)
  {
    var t := r[..i] + [true];
    assert s[..i] == t[..i] == r[..i] && s[i] == t[i];
  }

  /** Taking the set side of the last fork where `r` took the clear one, and the first string from there
      on, gives the string right after `r`. */
  lemma LeastAfterForkFollows(D: set<Bits>, n: nat, r: Bits, s: Bits)
    requires Uniform(D, n) && r in D && LastZero(D, r, n) > 0
    requires LeastUnder(D, r[..LastZero(D, r, n) - 1] + [true], s)
    ensures Follows(D, r, s)
  {
    hide Forks, LastZero, Before;
    var z := LastZero(D, r, n);
    SetSide(r, s, z - 1);
    assert Before(r, s) by {
      PartsBefore(r, s, z - 1);
    }
    forall d | d in D && Before(r, d)
      ensures d == s || Before(s, d)
    {
      var i := PartsOf(r, d);
      PartsAtFork(D, r, d, i);
      AfterFork(r, s, d, z - 1, i);
    }
  }

  lemma PartsBefore(a: Bits, b: Bits, i: nat)
    requires PartsAt(a, b, i)
    ensures Before(a, b)
  {}

  lemma PartsOf(a: Bits, b: Bits) returns (i: nat)
    requires Before(a, b)
    ensures PartsAt(a, b, i)
  {
    i :| PartsAt(a, b, i);
  }

  /** Parting from `r` earlier than `s` does means coming after `s`; at the same place, sharing its prefix. */
  lemma AfterFork(r: Bits, s: Bits, d: Bits, z: nat, i: nat)
    requires PartsAt(r, s, z) && PartsAt(r, d, i) && i <= z
    ensures if i == z then r[..z] + [true] <= d else Before(s, d)
  {
    if i < z {
      SameBelow(r, s, z, i);
      assert PartsAt(s, d, i);
    } else {
      assert d[..z + 1] == d[..z] + [d[z]];
    }
  }

  /** Descending one bit from `p` to the side the first string of that subtree is on. */
  lemma Descend(D: set<Bits>, n: nat, p: Bits, b: bool, r: Bits)
    requires Uniform(D, n) && |p| < n && LeastUnder(D, p + [b], r)
    requires b ==> !Occurs(D, p + [false])
    ensures LeastUnder(D, p, r)
  {
    assert p <= p + [b];
    forall d | d in D && p <= d
      ensures d == r || Before(r, d)
    {
      assert p + [d[|p|]] <= d;
      if d[|p|] != b {
        assert PartsAt(r, d, |p|);
      }
    }
  }

  /** A string of `D` that only takes the set side below `p` where the clear side does not occur. */
  lemma {:induction false} LeastFromChoices(D: set<Bits>, n: nat, r: Bits, k: nat)
    requires Uniform(D, n) && r in D && k <= n
    requires forall j :: k <= j < n && r[j] ==> !Occurs(D, r[..j] + [false])
    ensures LeastUnder(D, r[..k], r)
    decreases n - k
  {
    if k == n {
      assert r[..n] == r;
      assert forall d :: d in D && r <= d ==> d == r;
    } else {
      LeastFromChoices(D, n, r, k + 1);
      assert r[..k + 1] == r[..k] + [r[k]];
      Descend(D, n, r[..k], r[k], r);
    }
  }
}
