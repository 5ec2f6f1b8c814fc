// Shared vocabulary: options, results, errors, and facts about ascending id lists.
module Common {

  datatype Option<+T> = None | Some(value: T)

  datatype IndexError =
    | DocIdOverflow
    | OverlayFull(overlayDocs: nat, baseDocs: nat)
    | CorruptIndex
    | LockConflict
    | IoFailed

  datatype Result<+T> = Ok(value: T) | Err(error: IndexError)

  const U32_MAX: nat := 0xFFFF_FFFF
  const U64_MAX: nat := 0xFFFF_FFFF_FFFF_FFFF

  // Ceiling on document ids enforced when an index is opened (mod.rs:123).
  const MAX_TOTAL_DOCS: nat := 50_000_000

  function Max(a: nat, b: nat): nat { if a < b then b else a }

  function Min(a: nat, b: nat): nat { if a < b then a else b }

  function Find<K, V>(m: map<K, V>, k: K): Option<V> { if k in m then Some(m[k]) else None }

  lemma SameFinds<K, V>(a: map<K, V>, b: map<K, V>)
    requires forall k :: Find(a, k) == Find(b, k)
    ensures a == b
  {
    assert forall k :: k in a <==> Find(a, k).Some?;
    assert forall k :: k in b <==> Find(b, k).Some?;
  }

  // The racy-mtime margin, in nanoseconds (fingerprint.rs:17, worktree_anchor.rs:55).
  const NANOS: nat := 1_000_000_000
  const RACY_MARGIN: nat := 2 * NANOS

  function SatSub(a: nat, b: nat): nat { if a < b then 0 else a - b }

  ghost predicate Ascending(xs: seq<nat>) {
    forall i, j :: 0 <= i < j < |xs| ==> xs[i] < xs[j]
  }

  lemma AscendingSnoc(xs: seq<nat>, x: nat)
    requires Ascending(xs) && forall y :: y in xs ==> y < x
    ensures Ascending(xs + [x])
  {
    forall i, j | 0 <= i < j < |xs| + 1 ensures (xs + [x])[i] < (xs + [x])[j] {
      if j == |xs| {
        assert xs[i] in xs;
      }
    }
  }

  lemma BelowLast(xs: seq<nat>, init: seq<nat>, last: nat)
    requires Ascending(xs) && xs == init + [last]
    ensures Ascending(init) && (forall y :: y in init ==> y < last)
    ensures forall y :: y in xs <==> y in init || y == last
  {
    forall i, j | 0 <= i < j < |init| ensures init[i] < init[j] {
      assert xs[i] < xs[j];
    }
    forall y | y in init ensures y < last {
      var i :| 0 <= i < |init| && init[i] == y;
      assert xs[i] < xs[|init|];
    }
  }

  // Insertion into an ascending list; an id already present is not repeated.
  function InsertAscending(xs: seq<nat>, x: nat): (r: seq<nat>)
    requires Ascending(xs)
    ensures Ascending(r)
    ensures forall y :: y in r <==> y in xs || y == x
  {
    if |xs| == 0 then [x]
    else
      var init, last := xs[..|xs| - 1], xs[|xs| - 1];
      BelowLast(xs, init, last);
      if last < x then
        AscendingSnoc(xs, x);
        xs + [x]
      else if last == x then xs
      else
        var r' := InsertAscending(init, x);
        AscendingSnoc(r', last);
        r' + [last]
  }

  // The members of a finite set of ids, smallest first: the order in which a
  // roaring bitmap is iterated.
  function SortedIds(ids: set<nat>): (r: seq<nat>)
    ensures Ascending(r)
    ensures forall x :: x in r <==> x in ids
  {
    if ids == {} then []
    else
      LeastExists(ids);
      var x :| IsLeast(x, ids);
      ConsLeast(x, SortedIds(ids - {x}), ids);
      [x] + SortedIds(ids - {x})
  }

  predicate IsLeast(x: nat, ids: set<nat>) {
    x in ids && forall y :: y in ids ==> x <= y
  }

  lemma ConsLeast(x: nat, rest: seq<nat>, ids: set<nat>)
    requires IsLeast(x, ids) && Ascending(rest)
    requires forall y :: y in rest <==> y in ids - {x}
    ensures Ascending([x] + rest)
    ensures forall y :: y in [x] + rest <==> y in ids
  {
    forall k | 0 <= k < |rest| ensures x < rest[k] {
      assert rest[k] in rest;
    }
  }

  lemma {:induction false} LeastExists(ids: set<nat>)
    requires ids != {}
    ensures exists x :: IsLeast(x, ids)
  {
    var z :| z in ids;
    assert forall y :: y in ids ==> y == z || y in ids - {z};
    if ids - {z} == {} {
      assert IsLeast(z, ids);
    } else {
      LeastExists(ids - {z});
      var m :| IsLeast(m, ids - {z});
      assert IsLeast(if m < z then m else z, ids);
    }
  }

  lemma ConcatAssoc<T>(a: seq<T>, b: seq<T>, c: seq<T>)
    ensures (a + b) + c == a + (b + c)
  {
  }
}
