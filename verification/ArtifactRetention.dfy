/**
 * Retention of per-run artifact directories: an explicit-stack size walk, and
 * the newest-first scan that keeps runs inside a count window and a byte
 * budget, never touching runs that are still executing.
 */
module ArtifactRetention {
  import opened Basics
  import opened Text

  function Clamp(n: nat): nat { if n <= U64_MAX then n else U64_MAX }

  function SaturatingAdd(a: nat, b: nat): nat { Clamp(a + b) }

  // ---- Sizing a directory tree ----------------------------------------------

  /** An entry on disk; directories may be unreadable and files may lose their metadata. */
  datatype Node =
    | Dir(readable: bool, entries: seq<Node>)
    | File(size: Option<nat>)
    | Other

  /** Bytes below a node, counting what can be read. */
  function Bytes(n: Node): nat
    decreases n, 1
  {
    match n
    case Dir(readable, entries) => if readable then AllBytes(entries) else 0
    case File(size) => if size.Some? then size.value else 0
    case Other => 0
  }

  function AllBytes(ns: seq<Node>): nat
    decreases ns, 0
  {
    if ns == [] then 0 else Bytes(ns[0]) + AllBytes(ns[1..])
  }

  function NodeCount(n: Node): nat
    decreases n, 1
  {
    match n
    case Dir(_, entries) => 1 + NodesCount(entries)
    case _ => 1
  }

  function NodesCount(ns: seq<Node>): nat
    decreases ns, 0
  {
    if ns == [] then 0 else NodeCount(ns[0]) + NodesCount(ns[1..])
  }

  lemma {:induction false} Sums(ns: seq<Node>, n: Node)
    ensures AllBytes(ns + [n]) == AllBytes(ns) + Bytes(n)
    ensures NodesCount(ns + [n]) == NodesCount(ns) + NodeCount(n)
    decreases |ns|
  {
    if ns == [] {
      assert [] + [n] == [n];
    } else {
      assert (ns + [n])[1..] == ns[1..] + [n];
      Sums(ns[1..], n);
    }
  }

  /** The sizes of the files that can be reached and read, each once. */
  function ReadableFiles(n: Node): seq<nat>
    decreases n, 1
  {
    match n
    case Dir(true, entries) => AllReadableFiles(entries)
    case File(Some(size)) => [size]
    case _ => []
  }

  function AllReadableFiles(ns: seq<Node>): seq<nat>
    decreases ns, 0
  {
    if ns == [] then [] else ReadableFiles(ns[0]) + AllReadableFiles(ns[1..])
  }

  function SumOf(sizes: seq<nat>): nat {
    if sizes == [] then 0 else SumOf(sizes[..|sizes| - 1]) + sizes[|sizes| - 1]
  }

  lemma {:induction false} SumConcat(a: seq<nat>, b: seq<nat>)
    ensures SumOf(a + b) == SumOf(a) + SumOf(b)
    decreases |b|
  {
    if b == [] {
      assert a + b == a;
    } else {
      assert (a + b)[..|a + b| - 1] == a + b[..|b| - 1];
      SumConcat(a, b[..|b| - 1]);
    }
  }

  /** The bytes below a node are those of its readable files. */
  lemma {:induction false} BytesExactly(n: Node)
    ensures Bytes(n) == SumOf(ReadableFiles(n))
    decreases n, 1
  {
    if n.Dir? && n.readable {
      AllBytesExactly(n.entries);
    } else if n.File? && n.size.Some? {
      assert [n.size.value][..0] == [];
    }
  }

  lemma {:induction false} AllBytesExactly(ns: seq<Node>)
    ensures AllBytes(ns) == SumOf(AllReadableFiles(ns))
    decreases ns, 0
  {
    if ns != [] {
      BytesExactly(ns[0]);
      AllBytesExactly(ns[1..]);
      SumConcat(ReadableFiles(ns[0]), AllReadableFiles(ns[1..]));
    }
  }

  /** The same tree up to the order of entries, at every level. */
  ghost predicate Reordered(a: Node, b: Node)
    decreases a, 1
  {
    match (a, b)
    case (Dir(r, xs), Dir(q, ys)) => r == q && AllReordered(xs, ys)
    case _ => a == b
  }

  /** Each entry of the one has its own counterpart in the other. */
  ghost predicate AllReordered(xs: seq<Node>, ys: seq<Node>)
    decreases xs, 0
  {
    if xs == [] then ys == []
    else exists i :: 0 <= i < |ys| && Reordered(xs[0], ys[i]) && AllReordered(xs[1..], ys[..i] + ys[i + 1..])
  }

  /** Entries come back in no particular order, in any directory; the total does not depend on it. */
  lemma {:induction false} OrderDoesNotMatter(a: Node, b: Node)
    requires Reordered(a, b)
    ensures Bytes(a) == Bytes(b)
    decreases a, 1
  {
    if a.Dir? && b.Dir? {
      AllOrdersAgree(a.entries, b.entries);
    }
  }

  lemma {:induction false} AllOrdersAgree(xs: seq<Node>, ys: seq<Node>)
    requires AllReordered(xs, ys)
    ensures AllBytes(xs) == AllBytes(ys)
    decreases xs, 0
  {
    if xs != [] {
      var i :| 0 <= i < |ys| && Reordered(xs[0], ys[i]) && AllReordered(xs[1..], ys[..i] + ys[i + 1..]);
      OrderDoesNotMatter(xs[0], ys[i]);
      AllOrdersAgree(xs[1..], ys[..i] + ys[i + 1..]);
      PullOut(ys, i);
    }
  }

  lemma {:induction false} PullOut(b: seq<Node>, i: nat)
    requires i < |b|
    ensures AllBytes(b) == Bytes(b[i]) + AllBytes(b[..i] + b[i + 1..])
    decreases i
  {
    var rest := b[..i] + b[i + 1..];
    if i == 0 {
      assert rest == b[1..];
    } else {
      PullOut(b[1..], i - 1);
      assert rest[1..] == b[1..][..i - 1] + b[1..][i..];
    }
  }

  /** The entries of one directory: sub-directories are pushed, files are added up. */
  method ReadEntries(entries: seq<Node>, pending: seq<Node>, sofar: nat, ghost counted: nat)
    returns (stack: seq<Node>, total: nat, ghost counted': nat)
    requires sofar == Clamp(counted) && forall n :: n in pending ==> n.Dir?
    ensures forall n :: n in stack ==> n.Dir?
    ensures total == Clamp(counted') && counted' + AllBytes(stack) == counted + AllBytes(pending) + AllBytes(entries)
    ensures NodesCount(stack) <= NodesCount(pending) + NodesCount(entries)
  {
    stack, total, counted' := pending, sofar, counted;
    var i := 0;
    assert entries[0..] == entries;
    while i < |entries|
      invariant 0 <= i <= |entries|
      invariant forall n :: n in stack ==> n.Dir?
      invariant total == Clamp(counted')
      invariant counted' + AllBytes(stack) + AllBytes(entries[i..]) == counted + AllBytes(pending) + AllBytes(entries)
      invariant NodesCount(stack) + NodesCount(entries[i..]) <= NodesCount(pending) + NodesCount(entries)
    {
      var entry := entries[i];
      assert entries[i..][1..] == entries[i + 1..];
      match entry {
        case Dir(_, _) =>
          Sums(stack, entry);
          stack := stack + [entry];
        case File(Some(len)) =>
          total := SaturatingAdd(total, len);
          counted' := counted' + len;
        case _ =>
      }
      i := i + 1;
    }
  }

  /** The walk ends on every finite tree with the recursive sum, saturated. */
  method DirSizeBytes(root: Node) returns (total: nat)
    requires root.Dir?
    ensures total == Clamp(Bytes(root))
    ensures var sum := SumOf(ReadableFiles(root));
            total == if sum <= 0xFFFF_FFFF_FFFF_FFFF then sum else 0xFFFF_FFFF_FFFF_FFFF
  {
    BytesExactly(root);
    total := 0;
    var stack := [root];
    ghost var counted: nat := 0;
    assert AllBytes([root]) == Bytes(root);
    while stack != []
      invariant forall n :: n in stack ==> n.Dir?
      invariant total == Clamp(counted) && counted + AllBytes(stack) == Bytes(root)
      decreases NodesCount(stack)
    {
      var dir := stack[|stack| - 1];
      Sums(stack[..|stack| - 1], dir);
      assert stack[..|stack| - 1] + [dir] == stack;
      stack := stack[..|stack| - 1];
      if dir.readable {
        stack, total, counted := ReadEntries(dir.entries, stack, total, counted);
      }
    }
  }

  // ---- Which runs to remove ---------------------------------------------------

  /** `retain == 0` and `maxBytes == 0` each switch their rule off. */
  datatype Limits = Limits(retain: nat, maxBytes: nat)

  function TotalSize(runs: seq<string>, size: string -> nat): nat {
    if runs == [] then 0 else TotalSize(runs[..|runs| - 1], size) + size(runs[|runs| - 1])
  }

  /** The `n` newest runs sit inside both limits. */
  predicate Fits(newest: seq<string>, size: string -> nat, limits: Limits, n: nat)
    requires n <= |newest|
  {
    && (limits.retain == 0 || n <= limits.retain)
    && (limits.maxBytes == 0 || limits.maxBytes >= U64_MAX || TotalSize(newest[..n], size) <= limits.maxBytes)
  }

  function NewestFirst(names: seq<string>): (r: seq<string>)
    ensures |r| == |names|
  {
    var asc := Sort(names);
    assert |multiset(asc)| == |multiset(names)|;
    Reversed(asc)
  }

  function Reversed(xs: seq<string>): (r: seq<string>)
    ensures |r| == |xs|
    ensures forall i :: 0 <= i < |xs| ==> r[i] == xs[|xs| - 1 - i]
  {
    seq(|xs|, i requires 0 <= i < |xs| => xs[|xs| - 1 - i])
  }

  /** Inactive runs among the first `n` that do not fit, newest first. */
  function Removals(newest: seq<string>, size: string -> nat, limits: Limits, active: set<string>, n: nat): seq<string>
    requires n <= |newest|
  {
    if n == 0 then []
    else
      Removals(newest, size, limits, active, n - 1)
      + if Fits(newest, size, limits, n) || newest[n - 1] in active then [] else [newest[n - 1]]
  }

  function Pruned(names: seq<string>, size: string -> nat, limits: Limits, active: set<string>): seq<string> {
    Removals(NewestFirst(names), size, limits, active, |names|)
  }

  /** What the walk finds below each name. */
  function WalkedSize(tree: string -> Node): string -> nat {
    name => Clamp(Bytes(tree(name)))
  }

  /** The walks come first, one size per run, and only if there is a byte budget. */
  method WalkAll(newest: seq<string>, tree: string -> Node, limits: Limits) returns (sizes: seq<nat>)
    requires forall x :: x in newest ==> tree(x).Dir?
    ensures limits.maxBytes > 0 ==> |sizes| == |newest|
    ensures limits.maxBytes > 0 ==> forall i :: 0 <= i < |newest| ==> sizes[i] == WalkedSize(tree)(newest[i])
  {
    sizes := [];
    if limits.maxBytes > 0 {
      for i := 0 to |newest|
        invariant |sizes| == i && forall j :: 0 <= j < i ==> sizes[j] == WalkedSize(tree)(newest[j])
      {
        var size := DirSizeBytes(tree(newest[i]));
        sizes := sizes + [size];
      }
    }
  }

  /** The decision loop, with its saturating running total. */
  method DecideRemovals(
    newest: seq<string>, sizes: seq<nat>, ghost size: string -> nat, limits: Limits, active: set<string>)
    returns (toRemove: seq<string>)
    requires limits.maxBytes <= U64_MAX
    requires limits.maxBytes > 0 ==> |sizes| == |newest|
    requires limits.maxBytes > 0 ==> forall i :: 0 <= i < |newest| ==> sizes[i] == size(newest[i])
    ensures toRemove == Removals(newest, size, limits, active, |newest|)
  {
    var countPruning, bytePruning := limits.retain > 0, limits.maxBytes > 0;
    toRemove := [];
    var cumulative := 0;
    for idx := 0 to |newest|
      invariant bytePruning ==> cumulative == Clamp(TotalSize(newest[..idx], size))
      invariant toRemove == Removals(newest, size, limits, active, idx)
    {
      var name := newest[idx];
      TotalSnoc(newest, size, idx);
      if bytePruning {
        cumulative := SaturatingAdd(cumulative, sizes[idx]);
      }
      var withinCount := !countPruning || idx < limits.retain;
      var withinBytes := !bytePruning || cumulative <= limits.maxBytes;
      assert withinCount && withinBytes <==> Fits(newest, size, limits, idx + 1);
      if withinCount && withinBytes {
        continue;
      }
      if name in active {
        continue;
      }
      toRemove := toRemove + [name];
    }
  }

  /** The entries that are run directories: directories named by a ULID. */
  function RunNames(entries: seq<string>, tree: string -> Node, ulid: string -> bool): (names: seq<string>)
    ensures forall x :: x in names <==> x in entries && tree(x).Dir? && ulid(x)
  {
    if entries == [] then []
    else
      var init, last := entries[..|entries| - 1], entries[|entries| - 1];
      RunNames(init, tree, ulid) + if tree(last).Dir? && ulid(last) then [last] else []
  }

  method ListRuns(entries: seq<string>, tree: string -> Node, ulid: string -> bool) returns (names: seq<string>)
    ensures names == RunNames(entries, tree, ulid)
  {
    names := [];
    for i := 0 to |entries|
      invariant names == RunNames(entries[..i], tree, ulid)
    {
      assert entries[..i + 1][..i] == entries[..i];
      if tree(entries[i]).Dir? && ulid(entries[i]) {
        names := names + [entries[i]];
      }
    }
    assert entries[..|entries|] == entries;
  }

  lemma SameNames(names: seq<string>, x: string)
    ensures x in NewestFirst(names) <==> x in names
  {
    SameElements(Sort(names), names);
    var asc, r := Sort(names), NewestFirst(names);
    if x in r {
      var i :| 0 <= i < |r| && r[i] == x;
      assert asc[|asc| - 1 - i] == x;
    }
    if x in asc {
      var i :| 0 <= i < |asc| && asc[i] == x;
      assert r[|asc| - 1 - i] == x;
    }
  }

  /** Sort, reverse, walk and decide, unless both rules are off. */
  method ChooseRemovals(names: seq<string>, tree: string -> Node, limits: Limits, active: set<string>)
    returns (toRemove: seq<string>)
    requires limits.maxBytes <= U64_MAX && forall x :: x in names ==> tree(x).Dir?
    ensures toRemove == Pruned(names, WalkedSize(tree), limits, active)
  {
    var newest := NewestFirst(names);
    if limits.retain == 0 && limits.maxBytes == 0 {
      NothingToDo(newest, WalkedSize(tree), limits, active, |names|);
      return [];
    }
    forall x | x in newest ensures tree(x).Dir? {
      SameNames(names, x);
    }
    var sizes := WalkAll(newest, tree, limits);
    toRemove := DecideRemovals(newest, sizes, WalkedSize(tree), limits, active);
  }

  /** A directory that cannot be removed stays. */
  method RemoveRuns(found: set<string>, toRemove: seq<string>, removable: string -> bool) returns (left: set<string>)
    ensures left == set x | x in found && !(removable(x) && x in toRemove)
  {
    left := found;
    for i := 0 to |toRemove|
      invariant forall x :: x in left <==> x in found && !(removable(x) && x in toRemove[..i])
    {
      assert toRemove[..i + 1] == toRemove[..i] + [toRemove[i]];
      if removable(toRemove[i]) {
        left := left - {toRemove[i]};
      }
    }
    assert toRemove[..|toRemove|] == toRemove;
  }

  /**
   * One pass over the store, `tree` being what is on disk below each entry: run
   * directories that are to go by their walked sizes, and can be removed, go; all
   * else stays.
   */
  method PruneArtifactRuns(
    entries: seq<string>, tree: string -> Node, ulid: string -> bool, limits: Limits, active: set<string>,
    removable: string -> bool)
    returns (left: set<string>)
    requires limits.maxBytes <= U64_MAX
    ensures var gone := Pruned(RunNames(entries, tree, ulid), WalkedSize(tree), limits, active);
            left == set x | x in entries && !(removable(x) && x in gone)
  {
    var names := ListRuns(entries, tree, ulid);
    var toRemove := ChooseRemovals(names, tree, limits, active);
    var found := set x | x in entries;
    left := RemoveRuns(found, toRemove, removable);
    assert forall x :: x in found <==> x in entries;
  }

  lemma TotalSnoc(newest: seq<string>, size: string -> nat, n: nat)
    requires n < |newest|
    ensures TotalSize(newest[..n + 1], size) == TotalSize(newest[..n], size) + size(newest[n])
  {
    assert newest[..n + 1][..n] == newest[..n];
  }

  lemma {:induction false} NothingToDo(
    newest: seq<string>, size: string -> nat, limits: Limits, active: set<string>, n: nat)
    requires n <= |newest| && limits == Limits(0, 0)
    ensures Removals(newest, size, limits, active, n) == []
    decreases n
  {
    if n > 0 {
      NothingToDo(newest, size, limits, active, n - 1);
    }
  }

  // ---- What is kept -------------------------------------------------------------

  lemma {:induction false} TotalMonotone(newest: seq<string>, size: string -> nat, m: nat, n: nat)
    requires m <= n <= |newest|
    ensures TotalSize(newest[..m], size) <= TotalSize(newest[..n], size)
    decreases n
  {
    if m < n {
      TotalMonotone(newest, size, m, n - 1);
      assert newest[..n][..n - 1] == newest[..n - 1];
    }
  }

  lemma FitsDownwards(newest: seq<string>, size: string -> nat, limits: Limits, m: nat, n: nat)
    requires m <= n <= |newest| && Fits(newest, size, limits, n)
    ensures Fits(newest, size, limits, m)
  {
    TotalMonotone(newest, size, m, n);
  }

  /** How many of the newest runs fit. */
  function Window(newest: seq<string>, size: string -> nat, limits: Limits, n: nat): (k: nat)
    requires n <= |newest|
    ensures k <= n && Fits(newest, size, limits, k)
    ensures k < n ==> !Fits(newest, size, limits, k + 1)
  {
    if n == 0 then 0
    else if Fits(newest, size, limits, n) then n
    else Window(newest, size, limits, n - 1)
  }

  /** Removed are exactly the inactive runs past the longest prefix within both limits. */
  lemma {:induction false} RemovalsExactly(
    newest: seq<string>, size: string -> nat, limits: Limits, active: set<string>, n: nat, x: string)
    requires n <= |newest|
    ensures x in Removals(newest, size, limits, active, n) <==>
            x !in active && exists i :: Window(newest, size, limits, |newest|) <= i < n && newest[i] == x
    decreases n
  {
    if n > 0 {
      RemovalsExactly(newest, size, limits, active, n - 1, x);
      var k := Window(newest, size, limits, |newest|);
      if Fits(newest, size, limits, n) {
        if k < n { FitsDownwards(newest, size, limits, k + 1, n); }
      } else {
        if n <= k { FitsDownwards(newest, size, limits, n, k); }
      }
    }
  }

  function Sizes(runs: seq<string>, size: string -> nat): (sizes: seq<nat>)
    ensures |sizes| == |runs| && forall i :: 0 <= i < |runs| ==> sizes[i] == size(runs[i])
  {
    seq(|runs|, i requires 0 <= i < |runs| => size(runs[i]))
  }

  lemma {:induction false} TotalExactly(runs: seq<string>, size: string -> nat)
    ensures TotalSize(runs, size) == SumOf(Sizes(runs, size))
    decreases |runs|
  {
    if runs != [] {
      TotalExactly(runs[..|runs| - 1], size);
      assert Sizes(runs, size)[..|runs| - 1] == Sizes(runs[..|runs| - 1], size);
    }
  }

  /** The run at a position is past the count, or its size and those of all newer runs exceed the budget. */
  ghost predicate PastLimits(newest: seq<string>, size: string -> nat, limits: Limits, i: nat)
    requires i < |newest|
  {
    || (limits.retain > 0 && i >= limits.retain)
    || (0 < limits.maxBytes < 0xFFFF_FFFF_FFFF_FFFF && SumOf(Sizes(newest[..i + 1], size)) > limits.maxBytes)
  }

  /** A run is removed if and only if it is past the limits and not active. */
  lemma RemovedExactly(newest: seq<string>, size: string -> nat, limits: Limits, active: set<string>, i: nat)
    requires Descending(newest) && i < |newest|
    ensures newest[i] in Removals(newest, size, limits, active, |newest|) <==>
            newest[i] !in active && PastLimits(newest, size, limits, i)
  {
    var k := Window(newest, size, limits, |newest|);
    RemovalsExactly(newest, size, limits, active, |newest|, newest[i]);
    TotalExactly(newest[..i + 1], size);
    assert PastLimits(newest, size, limits, i) <==> !Fits(newest, size, limits, i + 1);
    if i < k {
      FitsDownwards(newest, size, limits, i + 1, k);
      if j :| k <= j < |newest| && newest[j] == newest[i] {
        LessTotal(newest[i], newest[j]);
      }
    } else if Fits(newest, size, limits, i + 1) {
      FitsDownwards(newest, size, limits, k + 1, i + 1);
    }
  }

  // ---- Order, and pruning twice ---------------------------------------------------

  ghost predicate Distinct(xs: seq<string>) {
    forall i, j :: 0 <= i < j < |xs| ==> xs[i] != xs[j]
  }

  ghost predicate Descending(xs: seq<string>) {
    forall i, j :: 0 <= i < j < |xs| ==> Less(xs[j], xs[i])
  }

  lemma {:induction false} DistinctIsMultiset(xs: seq<string>)
    ensures Distinct(xs) <==> forall x :: multiset(xs)[x] <= 1
    decreases |xs|
  {
    if xs != [] {
      assert xs == [xs[0]] + xs[1..];
      DistinctIsMultiset(xs[1..]);
      var rest := xs[1..];
      assert forall i :: 0 < i < |xs| ==> xs[i] == rest[i - 1];
      if Distinct(xs) {
        assert xs[0] !in rest;
        assert xs[0] !in multiset(rest);
      } else if forall x :: multiset(xs)[x] <= 1 {
        assert multiset(xs) == multiset{xs[0]} + multiset(rest);
        assert multiset(xs)[xs[0]] <= 1;
        assert forall x :: multiset(rest)[x] <= multiset(xs)[x];
        assert xs[0] !in rest;
      }
    }
  }

  /** Newest first is the one strictly descending listing of the names. */
  lemma NewestFirstListing(names: seq<string>)
    requires Distinct(names)
    ensures Descending(NewestFirst(names))
    ensures forall x :: x in NewestFirst(names) <==> x in names
  {
    var asc, r := Sort(names), NewestFirst(names);
    SortSorted(names);
    DistinctIsMultiset(names);
    DistinctIsMultiset(asc);
    SameElements(asc, names);
    forall i, j | 0 <= i < j < |r| ensures Less(r[j], r[i]) {
      LessTotal(r[j], r[i]);
      assert asc[|r| - 1 - j] != asc[|r| - 1 - i];
    }
    forall x ensures x in r <==> x in asc {
      if x in asc {
        var i :| 0 <= i < |asc| && asc[i] == x;
        assert r[|r| - 1 - i] == x;
      }
    }
  }

  lemma DescendingUnique(xs: seq<string>, ys: seq<string>)
    requires Descending(xs) && Descending(ys)
    requires forall x :: x in xs <==> x in ys
    ensures xs == ys
  {
    var a, b := Reversed(xs), Reversed(ys);
    forall x ensures x in a <==> x in b {
      if x in xs {
        var i :| 0 <= i < |xs| && xs[i] == x;
        var j :| 0 <= j < |ys| && ys[j] == x;
        assert a[|xs| - 1 - i] == x && b[|ys| - 1 - j] == x;
      }
    }
    ListingUnique(a, b);
    forall i | 0 <= i < |xs| ensures xs[i] == ys[i] {
      assert xs[i] == a[|xs| - 1 - i];
    }
  }

  /** Every removed run is older than every kept run that is not active. */
  lemma RemovedAreOlder(
    names: seq<string>, size: string -> nat, limits: Limits, active: set<string>, gone: string, kept: string)
    requires Distinct(names) && gone in Pruned(names, size, limits, active)
    requires kept in names && kept !in Pruned(names, size, limits, active) && kept !in active
    ensures Less(gone, kept)
  {
    var newest := NewestFirst(names);
    NewestFirstListing(names);
    RemovalsExactly(newest, size, limits, active, |newest|, gone);
    RemovalsExactly(newest, size, limits, active, |newest|, kept);
    var k := Window(newest, size, limits, |newest|);
    var i :| k <= i < |newest| && newest[i] == gone;
    var j :| 0 <= j < |newest| && newest[j] == kept;
    assert j < k;
  }

  function Only(xs: seq<string>, keep: set<string>): (r: seq<string>)
    ensures forall x :: x in r <==> x in xs && x in keep
  {
    if xs == [] then [] else (if xs[0] in keep then [xs[0]] else []) + Only(xs[1..], keep)
  }

  lemma {:induction false} OnlyDescending(xs: seq<string>, keep: set<string>)
    requires Descending(xs)
    ensures Descending(Only(xs, keep))
    decreases |xs|
  {
    if xs != [] {
      OnlyDescending(xs[1..], keep);
      forall x | x in Only(xs[1..], keep) ensures Less(x, xs[0]) {
        assert x in xs[1..];
      }
    }
  }

  lemma {:induction false} NothingPastWindow(
    newest: seq<string>, size: string -> nat, limits: Limits, active: set<string>, k: nat, n: nat)
    requires k <= |newest| && n <= |newest| && Fits(newest, size, limits, k)
    requires forall i :: k <= i < |newest| ==> newest[i] in active
    ensures Removals(newest, size, limits, active, n) == []
    decreases n
  {
    if n > 0 {
      NothingPastWindow(newest, size, limits, active, k, n - 1);
      if n <= k {
        FitsDownwards(newest, size, limits, n, k);
      }
    }
  }

  lemma DescendingConcat(a: seq<string>, b: seq<string>)
    requires Descending(a) && Descending(b)
    requires forall x, y :: x in a && y in b ==> Less(y, x)
    ensures Descending(a + b)
  {
    forall i, j | 0 <= i < j < |a + b| ensures Less((a + b)[j], (a + b)[i]) {
      if i < |a| <= j {
        assert a[i] in a && b[j - |a|] in b;
      }
    }
  }

  /** Newest first, what a prune leaves is the window and then the active runs past it. */
  lemma LeftListing(newest: seq<string>, size: string -> nat, limits: Limits, active: set<string>, k: nat)
    requires Descending(newest) && k == Window(newest, size, limits, |newest|)
    ensures Descending(newest[..k] + Only(newest[k..], active))
  {
    OnlyDescending(newest[k..], active);
    forall x, y | x in newest[..k] && y in Only(newest[k..], active) ensures Less(y, x) {
      var i :| 0 <= i < k && newest[i] == x;
      var j :| k <= j < |newest| && newest[j] == y;
    }
    DescendingConcat(newest[..k], Only(newest[k..], active));
  }

  lemma LeftMembers(newest: seq<string>, size: string -> nat, limits: Limits, active: set<string>, k: nat, x: string)
    requires Descending(newest) && k == Window(newest, size, limits, |newest|)
    ensures x in newest[..k] + Only(newest[k..], active) <==>
            x in newest && x !in Removals(newest, size, limits, active, |newest|)
  {
    RemovalsExactly(newest, size, limits, active, |newest|, x);
    LessTotal(x, x);
    if x in newest {
      var i :| 0 <= i < |newest| && newest[i] == x;
      if i < k {
        assert newest[..k][i] == x;
      } else {
        assert newest[k..][i - k] == x;
      }
    }
  }

  lemma SecondListing(names: seq<string>, left: seq<string>, size: string -> nat, limits: Limits, active: set<string>)
    requires Distinct(names) && Distinct(left)
    requires forall x :: x in left <==> x in names && x !in Pruned(names, size, limits, active)
    ensures var newest := NewestFirst(names); var k := Window(newest, size, limits, |newest|);
            NewestFirst(left) == newest[..k] + Only(newest[k..], active)
  {
    var newest := NewestFirst(names);
    var k := Window(newest, size, limits, |newest|);
    NewestFirstListing(names);
    NewestFirstListing(left);
    LeftListing(newest, size, limits, active, k);
    forall x ensures x in NewestFirst(left) <==> x in newest[..k] + Only(newest[k..], active) {
      LeftMembers(newest, size, limits, active, k, x);
    }
    DescendingUnique(NewestFirst(left), newest[..k] + Only(newest[k..], active));
  }

  /** What is left after one prune, listed in any order, survives a second one untouched. */
  lemma PruneTwice(names: seq<string>, left: seq<string>, size: string -> nat, limits: Limits, active: set<string>)
    requires Distinct(names) && Distinct(left)
    requires forall x :: x in left <==> x in names && x !in Pruned(names, size, limits, active)
    ensures Pruned(left, size, limits, active) == []
  {
    SecondListing(names, left, size, limits, active);
    var newest, newest2 := NewestFirst(names), NewestFirst(left);
    var k := Window(newest, size, limits, |newest|);
    var rest := Only(newest[k..], active);
    assert newest2[..k] == newest[..k];
    forall i | k <= i < |newest2| ensures newest2[i] in active {
      assert newest2[i] == rest[i - k];
    }
    NothingPastWindow(newest2, size, limits, active, k, |newest2|);
  }
}
