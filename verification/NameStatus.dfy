// Parsing `git diff --name-status -z` (delta.rs:92-123, 177-242): records of a
// status and a path, each ended by a NUL byte.
module NameStatus {
  import opened Common
  import opened Snapshots

  type Token = seq<Byte>

  const A: Byte := 65
  const M: Byte := 77
  const T: Byte := 84
  const D: Byte := 68

  datatype Changes = Changes(added: seq<Token>, modified: seq<Token>, deleted: seq<Token>)
  {
    function Len(): nat { |added| + |modified| + |deleted| }
  }

  const NoChanges := Changes([], [], [])

  datatype ParseError = MissingPath | UnsafePath | BadStatus

  datatype Parsed = Done(changes: Changes) | Bad(error: ParseError)

  // ---------------------------------------------------------------- tokens

  // The pieces between NUL bytes; one more piece than there are NULs.
  function Split(b: seq<Byte>): (ts: seq<Token>)
    ensures |ts| > 0
  {
    if |b| == 0 then [[]]
    else
      var rest := Split(b[1..]);
      if b[0] == 0 then [[]] + rest else [[b[0]] + rest[0]] + rest[1..]
  }

  function Tokens(b: seq<Byte>): seq<Token> {
    var ts := Split(b);
    if ts[|ts| - 1] == [] then ts[..|ts| - 1] else ts
  }

  function KindOf(t: Token): Byte { if |t| == 0 then 63 else t[0] }

  predicate Known(kind: Byte) { kind == A || kind == M || kind == T || kind == D }

  function Add(c: Changes, kind: Byte, path: Token): Changes {
    if kind == A then c.(added := c.added + [path])
    else if kind == M || kind == T then c.(modified := c.modified + [path])
    else c.(deleted := c.deleted + [path])
  }

  // ---------------------------------------------------------------- specification

  // `safe` tells which paths git may name; the rest are refused. `norm` is the
  // form in which a path is stored (path_util.rs:64-77).
  datatype Rules = Rules(safe: Token -> bool, norm: Token -> Token)

  function ParseFrom(ts: seq<Token>, i: nat, rules: Rules, c: Changes): Parsed
    requires i <= |ts|
    decreases |ts| - i
  {
    if i == |ts| then Done(c)
    else if !Known(KindOf(ts[i])) then Bad(BadStatus)
    else if i + 1 == |ts| then Bad(MissingPath)
    else if !rules.safe(ts[i + 1]) then Bad(UnsafePath)
    else ParseFrom(ts, i + 2, rules, Add(c, KindOf(ts[i]), rules.norm(ts[i + 1])))
  }

  // Statuses and paths alternate, each as it should be.
  ghost predicate WellFormed(ts: seq<Token>, i: nat, rules: Rules)
    requires i <= |ts|
  {
    && (|ts| - i) % 2 == 0
    && forall k :: i <= k < |ts| ==> if (k - i) % 2 == 0 then Known(KindOf(ts[k])) else rules.safe(ts[k])
  }

  // The paths at odd distance from `i` whose status is one of `kinds`.
  function Bucket(ts: seq<Token>, i: nat, kinds: set<Byte>, rules: Rules): seq<Token>
    requires i <= |ts|
    decreases |ts| - i
  {
    if i + 1 >= |ts| then []
    else (if KindOf(ts[i]) in kinds then [rules.norm(ts[i + 1])] else []) + Bucket(ts, i + 2, kinds, rules)
  }

  // Parsing accepts exactly the well-formed lists, and then every path is in
  // the bucket of its status, in order, with none lost or added.
  lemma {:induction false} ParseExact(ts: seq<Token>, i: nat, rules: Rules, c: Changes)
    requires i <= |ts|
    ensures ParseFrom(ts, i, rules, c).Done? <==> WellFormed(ts, i, rules)
    ensures ParseFrom(ts, i, rules, c).Done? ==>
              ParseFrom(ts, i, rules, c).changes
                == Changes(c.added + Bucket(ts, i, {A}, rules), c.modified + Bucket(ts, i, {M, T}, rules),
                           c.deleted + Bucket(ts, i, {D}, rules))
    ensures ParseFrom(ts, i, rules, c).Done? ==>
              2 * ParseFrom(ts, i, rules, c).changes.Len() == 2 * c.Len() + (|ts| - i)
    decreases |ts| - i
  {
    if i + 1 < |ts| && Known(KindOf(ts[i])) && rules.safe(ts[i + 1]) {
      var c' := Add(c, KindOf(ts[i]), rules.norm(ts[i + 1]));
      ParseExact(ts, i + 2, rules, c');
      WellFormedStep(ts, i, rules);
      BucketStep(ts, i, rules, c, c');
    } else if i < |ts| {
      NotWellFormed(ts, i, rules);
    }
  }

  lemma WellFormedStep(ts: seq<Token>, i: nat, rules: Rules)
    requires i + 1 < |ts| && Known(KindOf(ts[i])) && rules.safe(ts[i + 1])
    ensures WellFormed(ts, i, rules) <==> WellFormed(ts, i + 2, rules)
  {
    if WellFormed(ts, i + 2, rules) {
      forall k | i <= k < |ts| ensures if (k - i) % 2 == 0 then Known(KindOf(ts[k])) else rules.safe(ts[k]) {
        assert k >= i + 2 ==> (k - i) % 2 == (k - (i + 2)) % 2;
      }
    }
    if WellFormed(ts, i, rules) {
      forall k | i + 2 <= k < |ts| ensures if (k - (i + 2)) % 2 == 0 then Known(KindOf(ts[k])) else rules.safe(ts[k]) {
        assert (k - i) % 2 == (k - (i + 2)) % 2;
      }
    }
  }

  lemma NotWellFormed(ts: seq<Token>, i: nat, rules: Rules)
    requires i < |ts| && !(i + 1 < |ts| && Known(KindOf(ts[i])) && rules.safe(ts[i + 1]))
    ensures !WellFormed(ts, i, rules)
  {
    assert (i - i) % 2 == 0 && (i + 1 - i) % 2 == 1;
  }

  lemma BucketStep(ts: seq<Token>, i: nat, rules: Rules, c: Changes, c': Changes)
    requires i + 1 < |ts| && Known(KindOf(ts[i])) && c' == Add(c, KindOf(ts[i]), rules.norm(ts[i + 1]))
    ensures c'.added + Bucket(ts, i + 2, {A}, rules) == c.added + Bucket(ts, i, {A}, rules)
    ensures c'.modified + Bucket(ts, i + 2, {M, T}, rules) == c.modified + Bucket(ts, i, {M, T}, rules)
    ensures c'.deleted + Bucket(ts, i + 2, {D}, rules) == c.deleted + Bucket(ts, i, {D}, rules)
    ensures c'.Len() == c.Len() + 1
  {
    ConcatAssoc(c.added, [rules.norm(ts[i + 1])], Bucket(ts, i + 2, {A}, rules));
    ConcatAssoc(c.modified, [rules.norm(ts[i + 1])], Bucket(ts, i + 2, {M, T}, rules));
    ConcatAssoc(c.deleted, [rules.norm(ts[i + 1])], Bucket(ts, i + 2, {D}, rules));
    assert forall b: seq<Token> :: [] + b == b;
  }

  // ---------------------------------------------------------------- the operation

  method ParseNameStatusZ(bytes: seq<Byte>, rules: Rules) returns (r: Parsed)
    ensures r == ParseFrom(Tokens(bytes), 0, rules, NoChanges)
  {
    var changes := NoChanges;
    var tokens := Split(bytes);
    if tokens[|tokens| - 1] == [] {
      tokens := tokens[..|tokens| - 1];
    }
    var i := 0;
    while i < |tokens|
      invariant i <= |tokens|
      invariant ParseFrom(tokens, i, rules, changes) == ParseFrom(Tokens(bytes), 0, rules, NoChanges)
      decreases |tokens| - i
    {
      var kind := if |tokens[i]| > 0 then tokens[i][0] else 63;
      i := i + 1;
      if kind == A {
        if i >= |tokens| { return Bad(MissingPath); }
        if !rules.safe(tokens[i]) { return Bad(UnsafePath); }
        changes := changes.(added := changes.added + [rules.norm(tokens[i])]);
        i := i + 1;
      } else if kind == M || kind == T {
        if i >= |tokens| { return Bad(MissingPath); }
        if !rules.safe(tokens[i]) { return Bad(UnsafePath); }
        changes := changes.(modified := changes.modified + [rules.norm(tokens[i])]);
        i := i + 1;
      } else if kind == D {
        if i >= |tokens| { return Bad(MissingPath); }
        if !rules.safe(tokens[i]) { return Bad(UnsafePath); }
        changes := changes.(deleted := changes.deleted + [rules.norm(tokens[i])]);
        i := i + 1;
      } else {
        return Bad(BadStatus);
      }
    }
    r := Done(changes);
  }

  // ---------------------------------------------------------------- round trip

  // One record as git writes it.
  datatype Entry = Entry(status: Byte, path: Token)

  function Written(es: seq<Entry>): seq<Byte> {
    if |es| == 0 then [] else [es[0].status, 0] + es[0].path + [0] + Written(es[1..])
  }

  ghost predicate NoNul(t: Token) { forall i :: 0 <= i < |t| ==> t[i] != 0 }

  ghost predicate Good(e: Entry, rules: Rules) { Known(e.status) && NoNul(e.path) && rules.safe(e.path) }

  function Paths(es: seq<Entry>, kinds: set<Byte>, rules: Rules): seq<Token> {
    if |es| == 0 then []
    else (if es[0].status in kinds then [rules.norm(es[0].path)] else []) + Paths(es[1..], kinds, rules)
  }

  function Flat(es: seq<Entry>): seq<Token> { if |es| == 0 then [] else [[es[0].status], es[0].path] + Flat(es[1..]) }

  lemma {:induction false} SplitOne(t: Token, rest: seq<Byte>)
    requires NoNul(t)
    ensures Split(t + [0] + rest) == [t] + Split(rest)
  {
    var b := t + [0] + rest;
    if |t| == 0 {
      assert b[1..] == rest;
    } else {
      assert b[1..] == t[1..] + [0] + rest;
      SplitOne(t[1..], rest);
      assert [t[0]] + t[1..] == t;
    }
  }

  lemma {:induction false} SplitWritten(es: seq<Entry>, rules: Rules)
    requires forall i :: 0 <= i < |es| ==> Good(es[i], rules)
    ensures Split(Written(es)) == Flat(es) + [[]]
  {
    if |es| != 0 {
      var e, rest := es[0], Written(es[1..]);
      assert Good(es[0], rules) && forall i :: 0 <= i < |es[1..]| ==> es[1..][i] == es[i + 1];
      SplitWritten(es[1..], rules);
      SplitEntry(e, rest);
      assert [[e.status], e.path] + (Flat(es[1..]) + [[]]) == Flat(es) + [[]];
    }
  }

  lemma SplitEntry(e: Entry, rest: seq<Byte>)
    requires e.status != 0 && NoNul(e.path)
    ensures Split([e.status, 0] + e.path + [0] + rest) == [[e.status], e.path] + Split(rest)
  {
    var tail := e.path + [0] + rest;
    SplitOne(e.path, rest);
    SplitOne([e.status], tail);
    StatusFirst(e.status, e.path, rest);
    ConcatAssoc([[e.status]], [e.path], Split(rest));
    assert [[e.status]] + [e.path] == [[e.status], e.path];
  }

  lemma StatusFirst(status: Byte, path: Token, rest: seq<Byte>)
    ensures [status, 0] + path + [0] + rest == [status] + [0] + (path + [0] + rest)
  {
    assert [status, 0] == [status] + [0];
    ConcatAssoc([status, 0], path, [0]);
    ConcatAssoc([status, 0], path + [0], rest);
  }

  lemma {:induction false} FlatParses(es: seq<Entry>, rules: Rules, pre: seq<Token>, c: Changes)
    requires forall i :: 0 <= i < |es| ==> Good(es[i], rules)
    ensures ParseFrom(pre + Flat(es), |pre|, rules, c)
         == Done(Changes(c.added + Paths(es, {A}, rules), c.modified + Paths(es, {M, T}, rules),
                         c.deleted + Paths(es, {D}, rules)))
    decreases |es|
  {
    if |es| == 0 {
      assert c.added + [] == c.added && c.modified + [] == c.modified && c.deleted + [] == c.deleted;
    } else {
      var e, next := es[0], pre + [[es[0].status], es[0].path];
      assert Good(es[0], rules) && forall i :: 0 <= i < |es[1..]| ==> es[1..][i] == es[i + 1];
      ConcatAssoc(pre, [[e.status], e.path], Flat(es[1..]));
      FlatParses(es[1..], rules, next, Add(c, e.status, rules.norm(e.path)));
      PathsStep(es, rules, c, Add(c, e.status, rules.norm(e.path)));
      ParsesPair(next + Flat(es[1..]), |pre|, rules, c, e);
    }
  }

  lemma ParsesPair(ts: seq<Token>, i: nat, rules: Rules, c: Changes, e: Entry)
    requires i + 1 < |ts| && ts[i] == [e.status] && ts[i + 1] == e.path && Good(e, rules)
    ensures ParseFrom(ts, i, rules, c) == ParseFrom(ts, i + 2, rules, Add(c, e.status, rules.norm(e.path)))
  {
  }

  lemma PathsStep(es: seq<Entry>, rules: Rules, c: Changes, c': Changes)
    requires |es| > 0 && Known(es[0].status) && c' == Add(c, es[0].status, rules.norm(es[0].path))
    ensures c'.added + Paths(es[1..], {A}, rules) == c.added + Paths(es, {A}, rules)
    ensures c'.modified + Paths(es[1..], {M, T}, rules) == c.modified + Paths(es, {M, T}, rules)
    ensures c'.deleted + Paths(es[1..], {D}, rules) == c.deleted + Paths(es, {D}, rules)
  {
    ConcatAssoc(c.added, [rules.norm(es[0].path)], Paths(es[1..], {A}, rules));
    ConcatAssoc(c.modified, [rules.norm(es[0].path)], Paths(es[1..], {M, T}, rules));
    ConcatAssoc(c.deleted, [rules.norm(es[0].path)], Paths(es[1..], {D}, rules));
    assert forall b: seq<Token> :: [] + b == b;
  }

  lemma {:induction false} PathsCount(es: seq<Entry>, rules: Rules)
    requires forall i :: 0 <= i < |es| ==> Known(es[i].status)
    ensures |Paths(es, {A}, rules)| + |Paths(es, {M, T}, rules)| + |Paths(es, {D}, rules)| == |es|
  {
    if |es| != 0 {
      PathsCount(es[1..], rules);
    }
  }

  // One record, letter by letter: "A" adds, "M" and "T" modify, "D" deletes,
  // and any other status is refused, as is a path that is not safe.
  lemma OneRecordExactly(status: Byte, path: Token, rules: Rules)
    requires status != 0 && NoNul(path)
    ensures ParseFrom(Tokens([status, 0] + path + [0]), 0, rules, NoChanges)
         == if status != 65 && status != 77 && status != 84 && status != 68 then Bad(BadStatus)
            else if !rules.safe(path) then Bad(UnsafePath)
            else if status == 65 then Done(Changes([rules.norm(path)], [], []))
            else if status == 68 then Done(Changes([], [], [rules.norm(path)]))
            else Done(Changes([], [rules.norm(path)], []))
  {
    SplitEntry(Entry.Entry(status, path), []);
    assert [status, 0] + path + [0] + [] == [status, 0] + path + [0];
    var ts := [[status], path];
    assert ts + [[]] == [[status], path] + Split([]) && (ts + [[]])[..2] == ts;
    assert [] + [rules.norm(path)] == [rules.norm(path)];
  }

  // The NUL byte after the last path may be missing.
  lemma LastNulOptional(status: Byte, path: Token)
    requires status != 0 && NoNul(path) && path != []
    ensures Tokens([status, 0] + path) == Tokens([status, 0] + path + [0]) == [[status], path]
  {
    SplitEntry(Entry.Entry(status, path), []);
    assert [status, 0] + path + [0] + [] == [status, 0] + path + [0];
    assert [[status], path] + Split([]) == [[status], path, []];
    SplitOne([status], path);
    SplitWhole(path);
    assert [status, 0] + path == [status] + [0] + path;
    assert [[status]] + [path] == [[status], path];
    assert [[status], path, []][..2] == [[status], path];
  }

  lemma {:induction false} SplitWhole(t: Token)
    requires NoNul(t)
    ensures Split(t) == [t]
  {
    if |t| != 0 {
      SplitWhole(t[1..]);
      assert [t[0]] + t[1..] == t;
    }
  }

  // Main theorem: what git writes parses back to the same buckets, in order,
  // and no record is lost.
  lemma ParseUndoesWriting(es: seq<Entry>, rules: Rules)
    requires forall i :: 0 <= i < |es| ==> Good(es[i], rules)
    ensures ParseFrom(Tokens(Written(es)), 0, rules, NoChanges)
         == Done(Changes(Paths(es, {A}, rules), Paths(es, {M, T}, rules), Paths(es, {D}, rules)))
    ensures Changes(Paths(es, {A}, rules), Paths(es, {M, T}, rules), Paths(es, {D}, rules)).Len() == |es|
  {
    SplitWritten(es, rules);
    assert Tokens(Written(es)) == Flat(es);
    FlatParses(es, rules, [], NoChanges);
    assert [] + Flat(es) == Flat(es);
    assert [] + Paths(es, {A}, rules) == Paths(es, {A}, rules);
    assert [] + Paths(es, {M, T}, rules) == Paths(es, {M, T}, rules);
    assert [] + Paths(es, {D}, rules) == Paths(es, {D}, rules);
    PathsCount(es, rules);
  }
}
