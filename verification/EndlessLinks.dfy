/** When the resolution of a link really never ends: not each link that comes up twice
    makes it endless, only one that comes up again in front of the same rest. */
module EndlessLinks {
  import opened Prelude
  import opened SymlinkResolver

  ghost predicate Endless(targets: Targets, path: Path) {
    forall k: nat :: After(targets, path, k).Some?
  }

  /** How many components substitution `k` leaves untouched behind the link. */
  function Left(targets: Targets, path: Path, k: nat): nat
    requires Replaced(targets, path, k).Some?
  {
    |After(targets, path, k).value| - LinkPrefix(targets, After(targets, path, k).value, 1).value
  }

  /** Substitution `k` takes place in front of the last `rest` components. */
  ghost predicate InFront(targets: Targets, path: Path, rest: nat, k: nat) {
    Replaced(targets, path, k).Some? && Left(targets, path, k) >= rest
  }

  /** The link of substitution `i` is replaced again by substitution `j`, and from the one
      to the other nothing behind its first occurrence is touched. */
  ghost predicate Recurs(targets: Targets, path: Path, i: nat, j: nat) {
    && i < j && Replaced(targets, path, i).Some? && Replaced(targets, path, j) == Replaced(targets, path, i)
    && forall k: nat :: i <= k <= j ==> InFront(targets, path, Left(targets, path, i), k)
  }

  // ---- Substitutions in front of a rest ----

  lemma {:induction false} AfterAgain(targets: Targets, path: Path, i: nat, k: nat)
    requires After(targets, path, i).Some?
    ensures After(targets, path, i + k) == After(targets, After(targets, path, i).value, k)
    decreases i
  {
    if i > 0 {
      AfterAgain(targets, Substitute(targets, path), i - 1, k);
    }
  }

  /** A longer resolution goes through the shorter one. */
  lemma {:induction false} AfterEarlier(targets: Targets, path: Path, i: nat, k: nat)
    requires i <= k && After(targets, path, k).Some?
    ensures After(targets, path, i).Some? && (i < k ==> Replaced(targets, path, i).Some?)
    decreases i
  {
    if i > 0 {
      AfterEarlier(targets, Substitute(targets, path), i - 1, k - 1);
    }
  }

  lemma {:induction false} PrefixInHead(targets: Targets, head: Path, rest: Path, i: nat)
    requires i >= 1
    ensures LinkPrefix(targets, head, i).Some? ==> LinkPrefix(targets, head + rest, i) == LinkPrefix(targets, head, i)
    ensures LinkPrefix(targets, head + rest, i).Some? && LinkPrefix(targets, head + rest, i).value <= |head| ==>
      LinkPrefix(targets, head, i) == LinkPrefix(targets, head + rest, i)
    decreases |head + rest| - i
  {
    if i <= |head| {
      assert (head + rest)[..i] == head[..i];
      PrefixInHead(targets, head, rest, i + 1);
    }
  }

  /** A link in the head is the next one whatever follows, and substituting it leaves
      what follows alone. */
  lemma HeadStep(targets: Targets, head: Path, rest: Path)
    requires NextLink(targets, head).Some?
      || (NextLink(targets, head + rest).Some? && LinkPrefix(targets, head + rest, 1).value <= |head|)
    ensures NextLink(targets, head).Some? && NextLink(targets, head + rest) == NextLink(targets, head)
    ensures Substitute(targets, head + rest) == Substitute(targets, head) + rest
  {
    PrefixInHead(targets, head, rest, 1);
    var n := LinkPrefix(targets, head, 1).value;
    assert (head + rest)[..n] == head[..n] && (head + rest)[n..] == head[n..] + rest;
    Nest(targets[Some(head[..n])], head[n..], rest);
  }

  /** The head has a link to substitute in each of the first `k` steps and after them. */
  ghost predicate Goes(targets: Targets, head: Path, k: nat) {
    Replaced(targets, head, k).Some?
  }

  /** Substitutions in front of a rest are substitutions of the head alone. */
  lemma {:induction false} HeadGoes(targets: Targets, head: Path, rest: Path, k: nat)
    requires forall l: nat :: l <= k ==> InFront(targets, head + rest, |rest|, l)
    ensures Goes(targets, head, k)
    ensures After(targets, head + rest, k) == Some(After(targets, head, k).value + rest)
    decreases k
  {
    var path := head + rest;
    assert InFront(targets, path, |rest|, 0);
    HeadStep(targets, head, rest);
    if k > 0 {
      var next := Substitute(targets, head);
      forall l: nat | l <= k - 1
        ensures InFront(targets, next + rest, |rest|, l)
      {
        assert InFront(targets, path, |rest|, l + 1);
        assert Replaced(targets, path, l + 1) == Replaced(targets, next + rest, l);
      }
      HeadGoes(targets, next, rest, k - 1);
    }
  }

  /** So they take place in front of any other rest as well. */
  lemma {:induction false} HeadReplays(targets: Targets, head: Path, rest: Path, k: nat)
    requires Goes(targets, head, k)
    ensures After(targets, head + rest, k) == Some(After(targets, head, k).value + rest)
    decreases k
  {
    if k > 0 {
      HeadStep(targets, head, rest);
      HeadReplays(targets, Substitute(targets, head), rest, k - 1);
    }
  }

  /** A link that comes up again, in front of what is left of itself, never ends. */
  lemma {:induction false} LoopsOn(targets: Targets, name: Path, more: Path, rest: Path, d: nat, k: nat)
    requires d > 0 && Goes(targets, name, d) && After(targets, name, d) == Some(name + more)
    ensures After(targets, name + rest, k).Some?
    decreases k
  {
    HeadReplays(targets, name, rest, d);
    if k <= d {
      AfterEarlier(targets, name + rest, k, d);
    } else {
      Nest(name, more, rest);
      AfterAgain(targets, name + rest, d, k - d);
      LoopsOn(targets, name, more, more + rest, d, k - d);
    }
  }

  lemma ReplacedIs(targets: Targets, path: Path, k: nat)
    requires Replaced(targets, path, k).Some?
    ensures var at := After(targets, path, k).value; var n := |at| - Left(targets, path, k);
      0 <= n <= |at| && at[..n] == Replaced(targets, path, k).value && at == at[..n] + at[n..]
  {}

  /** Recurrence makes a resolution endless. */
  lemma RecursEndless(targets: Targets, path: Path, i: nat, j: nat)
    requires Recurs(targets, path, i, j)
    ensures Endless(targets, path)
  {
    var at, d := After(targets, path, i).value, j - i;
    var name := Replaced(targets, path, i).value;
    ReplacedIs(targets, path, i);
    var rest := at[|name|..];
    assert at == name + rest && |rest| == Left(targets, path, i);
    forall l: nat | l <= d
      ensures InFront(targets, name + rest, |rest|, l)
    {
      assert InFront(targets, path, |rest|, i + l);
      AfterAgain(targets, path, i, l);
    }
    HeadGoes(targets, name, rest, d);
    var head := After(targets, name, d).value;
    AfterAgain(targets, path, i, d);
    ReplacedIs(targets, path, j);
    assert InFront(targets, path, |rest|, j);
    assert (head + rest)[..|name|] == name;
    assert head == name + head[|name|..];
    forall k: nat
      ensures After(targets, path, k).Some?
    {
      if k < i {
        AfterEarlier(targets, path, k, i);
      } else {
        LoopsOn(targets, name, head[|name|..], rest, d, k - i);
        AfterAgain(targets, path, i, k - i);
      }
    }
  }

  // ---- Endless resolutions recur ----

  /** From `k` on, nothing behind the link of substitution `k` is touched any more. */
  ghost predicate Low(targets: Targets, path: Path, k: nat) {
    Replaced(targets, path, k).Some? && forall l: nat :: k <= l ==> InFront(targets, path, Left(targets, path, k), l)
  }

  lemma EndlessReplaces(targets: Targets, path: Path, k: nat)
    requires Endless(targets, path)
    ensures Replaced(targets, path, k).Some?
  {
    AfterEarlier(targets, path, k, k + 1);
  }

  /** Behind any substitution there is one that leaves the least. */
  lemma {:induction false} LowBehind(targets: Targets, path: Path, k: nat) returns (low: nat)
    requires Endless(targets, path) && Replaced(targets, path, k).Some?
    ensures k <= low && Low(targets, path, low)
    decreases Left(targets, path, k)
  {
    if l: nat :| k <= l && !InFront(targets, path, Left(targets, path, k), l) {
      EndlessReplaces(targets, path, l);
      low := LowBehind(targets, path, l);
    } else {
      low := k;
    }
  }

  /** Every link of `seen` is replaced by a low substitution before `k`. */
  ghost predicate SeenLow(targets: Targets, path: Path, seen: set<Option<Path>>, k: nat) {
    forall link :: link in seen ==>
      link in targets && exists i: nat :: i < k && Low(targets, path, i) && Replaced(targets, path, i) == link
  }

  /** There are only so many links, so two low substitutions replace the same one. */
  lemma {:induction false} Repeats(targets: Targets, path: Path, seen: set<Option<Path>>, k: nat)
      returns (i: nat, j: nat)
    requires Endless(targets, path) && SeenLow(targets, path, seen, k)
    ensures Recurs(targets, path, i, j)
    decreases targets.Keys - seen
  {
    EndlessReplaces(targets, path, k);
    j := LowBehind(targets, path, k);
    var link := Replaced(targets, path, j);
    if link in seen {
      i :| i < k && Low(targets, path, i) && Replaced(targets, path, i) == link;
    } else {
      assert link in targets.Keys - seen && link !in targets.Keys - (seen + {link});
      forall other | other in seen + {link}
        ensures other in targets
          && exists i: nat :: i < j + 1 && Low(targets, path, i) && Replaced(targets, path, i) == other
      {
        if other != link {
          var m: nat :| m < k && Low(targets, path, m) && Replaced(targets, path, m) == other;
        }
      }
      i, j := Repeats(targets, path, seen + {link}, j + 1);
    }
  }

  /** A resolution never ends exactly when some link is replaced again while everything
      behind its first occurrence is untouched. */
  lemma EndlessIff(targets: Targets, path: Path)
    ensures Endless(targets, path) <==> exists i: nat, j: nat :: Recurs(targets, path, i, j)
  {
    if i: nat, j: nat :| Recurs(targets, path, i, j) {
      RecursEndless(targets, path, i, j);
    }
    if Endless(targets, path) {
      var i, j := Repeats(targets, path, {}, 0);
    }
  }
}
