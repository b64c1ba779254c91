/** The depth-first property iterator (`AAFPropertyIterator` in
    src/property_iterator.rs): a stack of entries, one per property of an
    object; popping an entry pushes the entries of the objects its strong
    reference names.

    A failure inside `fill_stack` or `next` panics in the source; here it
    ends the iteration with an error that every later call repeats. */
module PropertyIterator {
  import opened Bytes
  import opened Errors
  import opened AafFile

  /** What the iterator asks of its file: the pids of an object and the
      value of one of its properties. */
  datatype ObjectGraph = ObjectGraph(
    ids: Object -> Result<seq<u16>>,
    value: (Object, u16) -> Result<PropertyValue>)

  /** The graph of a file: `all_property_ids` and `get_value`. */
  function GraphOf(f: AAFFile, fuel: nat): (g: ObjectGraph)
    ensures forall o :: g.ids(o) == AllPropertyIds(f, o)
    ensures forall o, pid :: g.value(o, pid) == GetValue(f, o, pid, fuel)
  {
    ObjectGraph((o: Object) => AllPropertyIds(f, o), (o: Object, pid: u16) => GetValue(f, o, pid, fuel))
  }

  /** `AAFEntry`: a property of `parent` and its resolved value, if any. */
  datatype Entry = Entry(parent: Object, property: u16, value: Option<PropertyValue>, depth: nat)

  /** The value an entry records for a `get_value` result: absent when the
      property does not resolve. */
  function ToOption(r: Result<PropertyValue>): (v: Option<PropertyValue>)
    ensures v.Some? <==> r.Ok?
    ensures v.Some? ==> v.value == r.value
  {
    match r
    case Ok(value) => Some(value)
    case Err(_) => None
  }

  /** An entry whose value is what `get_value` gives for its property. */
  ghost predicate Genuine(g: ObjectGraph, e: Entry)
  {
    e.value == ToOption(g.value(e.parent, e.property))
  }

  /** The objects `next` descends into: those of strong references only. */
  function Children(v: Option<PropertyValue>): seq<Object>
  {
    match v
    case Some(Single(o)) => [o]
    case Some(Vector(objs)) => objs
    case Some(Set(objs)) => objs
    case _ => []
  }

  /** The entries `fill_stack` pushes for the pids `ids` of `parent`, in order. */
  function EntriesFor(g: ObjectGraph, parent: Object, ids: seq<u16>, depth: nat): (r: seq<Entry>)
    ensures |r| == |ids|
    ensures forall i :: 0 <= i < |ids| ==>
      r[i].parent == parent && r[i].property == ids[i] && r[i].depth == depth + 1 && Genuine(g, r[i])
    decreases |ids|
  {
    if ids == [] then []
    else
      var last := ids[|ids| - 1];
      EntriesFor(g, parent, ids[..|ids| - 1], depth)
        + [Entry(parent, last, ToOption(g.value(parent, last)), depth + 1)]
  }

  /** `fill_stack`: one entry per property of `parent`, in `all_property_ids`
      order, one level deeper than `depth`. */
  function Fill(g: ObjectGraph, parent: Object, depth: nat): (r: Result<seq<Entry>>)
    ensures r.Ok? <==> g.ids(parent).Ok?
    ensures r.Err? ==> r.error == g.ids(parent).error
    ensures r.Ok? ==> |r.value| == |g.ids(parent).value|
    ensures r.Ok? ==> forall i :: 0 <= i < |r.value| ==>
      r.value[i].parent == parent && r.value[i].property == g.ids(parent).value[i]
      && r.value[i].depth == depth + 1 && Genuine(g, r.value[i])
  {
    var ids :- g.ids(parent);
    Ok(EntriesFor(g, parent, ids, depth))
  }

  /** What one `next` pushes for the members `objs`: the members are filled
      last to first, so the first member's entries end up on top. */
  function Pushed(g: ObjectGraph, objs: seq<Object>, depth: nat): (r: Result<seq<Entry>>)
    ensures r.Ok? ==> forall i :: 0 <= i < |r.value| ==>
      r.value[i].parent in objs && r.value[i].depth == depth + 1 && Genuine(g, r.value[i])
    decreases |objs|
  {
    if objs == [] then Ok([])
    else
      var later :- Pushed(g, objs[1..], depth);
      var first :- Fill(g, objs[0], depth);
      assert forall o :: o in objs[1..] ==> o in objs;
      Ok(later + first)
  }

  /** A member that cannot be filled fails the whole push, whatever the
      members before it. */
  lemma {:induction false} PushedFailure(g: ObjectGraph, objs: seq<Object>, depth: nat, k: nat)
    requires k <= |objs| && Pushed(g, objs[k..], depth).Err?
    ensures Pushed(g, objs, depth) == Pushed(g, objs[k..], depth)
    decreases k
  {
    if k > 0 {
      assert objs[1..][k - 1..] == objs[k..];
      PushedFailure(g, objs[1..], depth, k - 1);
    }
  }

  class AAFPropertyIterator {
    const graph: ObjectGraph
    var stack: seq<Entry>
    var failure: Option<Error>

    /** `new`: the stack starts with the root object's entries at depth 1. */
    constructor (file: AAFFile, root: Object, fuel: nat)
      ensures graph == GraphOf(file, fuel)
      ensures Fill(graph, root, 0).Ok? ==> stack == Fill(graph, root, 0).value && failure == None
      ensures Fill(graph, root, 0).Err? ==> stack == [] && failure == Some(Fill(graph, root, 0).error)
    {
      graph := GraphOf(file, fuel);
      stack := [];
      failure := None;
      new;
      FillStack(root, 0);
    }

    /** `fill_stack`: pushes an entry per property of `parent`; an object
        whose properties cannot be read stops the iteration. */
    method FillStack(parent: Object, depth: nat)
      requires failure == None
      modifies this
      ensures Fill(graph, parent, depth).Ok? ==>
        stack == old(stack) + Fill(graph, parent, depth).value && failure == None
      ensures Fill(graph, parent, depth).Err? ==>
        stack == [] && failure == Some(Fill(graph, parent, depth).error)
    {
      var ids := graph.ids(parent);
      if ids.Err? {
        failure := Some(ids.error);
        stack := [];
        return;
      }
      ghost var start := stack;
      for i := 0 to |ids.value|
        invariant stack == start + EntriesFor(graph, parent, ids.value[..i], depth)
        invariant failure == None
      {
        assert ids.value[..i + 1][..i] == ids.value[..i];
        var pv := graph.value(parent, ids.value[i]);
        stack := stack + [Entry(parent, ids.value[i], ToOption(pv), depth + 1)];
      }
      assert ids.value[..|ids.value|] == ids.value;
    }

    /** The loops of `next` over a vector's or set's members, last member
        first; a single reference is a one-member list. */
    method PushChildren(children: seq<Object>, depth: nat)
      requires failure == None
      modifies this
      ensures Pushed(graph, children, depth).Ok? ==>
        stack == old(stack) + Pushed(graph, children, depth).value && failure == None
      ensures Pushed(graph, children, depth).Err? ==>
        stack == [] && failure == Some(Pushed(graph, children, depth).error)
    {
      ghost var start := stack;
      var i := |children|;
      while i > 0
        invariant 0 <= i <= |children|
        invariant failure == None
        invariant Pushed(graph, children[i..], depth).Ok?
        invariant stack == start + Pushed(graph, children[i..], depth).value
        decreases i
      {
        assert children[i - 1..][1..] == children[i..];
        FillStack(children[i - 1], depth);
        if failure.Some? {
          assert Pushed(graph, children[i - 1..], depth) == Err(failure.value);
          PushedFailure(graph, children, depth, i - 1);
          return;
        }
        i := i - 1;
      }
      assert children[0..] == children;
    }

    /** `next`: nothing once the stack is empty; otherwise the top entry,
        after the entries of its strong children have been pushed in its
        place. */
    method Next() returns (r: Result<Option<Entry>>)
      modifies this
      ensures old(failure).Some? ==> r == Err(old(failure).value) && stack == old(stack) && failure == old(failure)
      ensures old(failure) == None && old(stack) == [] ==> r == Ok(None) && stack == [] && failure == None
      ensures old(failure) == None && old(stack) != [] ==>
        var top := old(stack)[|old(stack)| - 1];
        var pushed := Pushed(graph, Children(top.value), top.depth);
        && (pushed.Ok? ==> r == Ok(Some(top)) && stack == old(stack)[..|old(stack)| - 1] + pushed.value && failure == None)
        && (pushed.Err? ==> r == Err(pushed.error) && stack == [] && failure == Some(pushed.error))
    {
      if failure.Some? {
        return Err(failure.value);
      }
      if stack == [] {
        return Ok(None);
      }
      var top := stack[|stack| - 1];
      stack := stack[..|stack| - 1];
      PushChildren(Children(top.value), top.depth);
      if failure.Some? {
        return Err(failure.value);
      }
      r := Ok(Some(top));
    }

    /** Draining the iterator, as a `for` loop over it does: on a file whose
        strong references are ranked by `height`, every call yields an entry
        until the stack is empty, and the entries come out in the order of
        the depth-first walk of the stack. */
    method Collect(ghost height: Path -> nat, ghost bound: nat) returns (out: seq<Entry>)
      requires failure == None
      requires Acyclic(graph, height) && Bounded(graph, height, stack, bound)
      modifies this
      ensures out == WalkStack(graph, height, old(stack), bound)
      ensures stack == [] && failure == None
    {
      out := [];
      while stack != []
        invariant failure == None && Bounded(graph, height, stack, bound)
        invariant out + WalkStack(graph, height, stack, bound) == WalkStack(graph, height, old(stack), bound)
        decreases |WalkStack(graph, height, stack, bound)|
      {
        ghost var before := stack;
        var top := stack[|stack| - 1];
        NextWalk(graph, height, before, bound);
        var r := Next();
        assert r == Ok(Some(top));
        assert stack == before[..|before| - 1] + Pushed(graph, Children(top.value), top.depth).value;
        AppendAssoc(out, [top], WalkStack(graph, height, stack, bound));
        out := out + [r.value.value];
      }
    }
  }

  // ---------------------------------------------------------------------
  // The walk the iterator performs

  /** Every strong child of every object is ranked strictly below it and
      has a readable properties stream: the strong-reference graph is
      acyclic and complete. */
  ghost predicate Acyclic(g: ObjectGraph, height: Path -> nat)
  {
    forall o: Object, pid: u16, c: Object :: c in Children(ToOption(g.value(o, pid))) ==>
      height(c.path) < height(o.path) && g.ids(c).Ok?
  }

  ghost predicate Bounded(g: ObjectGraph, height: Path -> nat, st: seq<Entry>, bound: nat)
  {
    forall i :: 0 <= i < |st| ==> Genuine(g, st[i]) && height(st[i].parent.path) < bound
  }

  ghost predicate BelowAll(g: ObjectGraph, height: Path -> nat, objs: seq<Object>, bound: nat)
  {
    forall c :: c in objs ==> height(c.path) < bound && g.ids(c).Ok?
  }

  /** An entry, then the walks of the objects its value references, member 0 first. */
  ghost function Walk(g: ObjectGraph, height: Path -> nat, e: Entry): seq<Entry>
    requires Acyclic(g, height) && Genuine(g, e)
    decreases height(e.parent.path), 2, 0
  {
    [e] + WalkObjects(g, height, Children(e.value), e.depth, height(e.parent.path))
  }

  /** The walks of each object's entries, in member order. */
  ghost function WalkObjects(g: ObjectGraph, height: Path -> nat, objs: seq<Object>, depth: nat, bound: nat): seq<Entry>
    requires Acyclic(g, height) && BelowAll(g, height, objs, bound)
    decreases bound, 1, |objs|
  {
    if objs == [] then []
    else
      assert objs[0] in objs;
      assert forall c :: c in objs[1..] ==> c in objs;
      WalkStack(g, height, Fill(g, objs[0], depth).value, bound)
        + WalkObjects(g, height, objs[1..], depth, bound)
  }

  /** The walks of a stack's entries, top first. */
  ghost function WalkStack(g: ObjectGraph, height: Path -> nat, st: seq<Entry>, bound: nat): (r: seq<Entry>)
    requires Acyclic(g, height) && Bounded(g, height, st, bound)
    ensures |r| >= |st|
    decreases bound, 0, |st|
  {
    if st == [] then []
    else Walk(g, height, st[|st| - 1]) + WalkStack(g, height, st[..|st| - 1], bound)
  }

  /** Entries pushed later are walked first. */
  lemma {:induction false} WalkStackAppend(g: ObjectGraph, height: Path -> nat, a: seq<Entry>, b: seq<Entry>, bound: nat)
    requires Acyclic(g, height) && Bounded(g, height, a, bound) && Bounded(g, height, b, bound)
    ensures Bounded(g, height, a + b, bound)
    ensures WalkStack(g, height, a + b, bound)
         == WalkStack(g, height, b, bound) + WalkStack(g, height, a, bound)
    decreases |b|
  {
    assert forall i :: 0 <= i < |a + b| ==> (a + b)[i] == (if i < |a| then a[i] else b[i - |a|]);
    if b == [] {
      assert a + b == a;
    } else {
      var b' := b[..|b| - 1];
      assert (a + b)[..|a + b| - 1] == a + b';
      assert Bounded(g, height, b', bound);
      WalkStackAppend(g, height, a, b', bound);
    }
  }

  /** The bound only witnesses termination; the walk does not depend on it. */
  lemma {:induction false} WalkStackBound(g: ObjectGraph, height: Path -> nat, st: seq<Entry>, b1: nat, b2: nat)
    requires Acyclic(g, height) && Bounded(g, height, st, b1) && Bounded(g, height, st, b2)
    ensures WalkStack(g, height, st, b1) == WalkStack(g, height, st, b2)
    decreases |st|
  {
    if st != [] {
      var st' := st[..|st| - 1];
      assert Bounded(g, height, st', b1) && Bounded(g, height, st', b2);
      WalkStackBound(g, height, st', b1, b2);
    }
  }

  /** Walking what `next` pushes for some members is walking the members in order. */
  lemma {:induction false} PushedWalk(g: ObjectGraph, height: Path -> nat, objs: seq<Object>, depth: nat, bound: nat)
    requires Acyclic(g, height) && BelowAll(g, height, objs, bound)
    ensures Pushed(g, objs, depth).Ok?
    ensures Bounded(g, height, Pushed(g, objs, depth).value, bound)
    ensures WalkStack(g, height, Pushed(g, objs, depth).value, bound)
         == WalkObjects(g, height, objs, depth, bound)
    decreases |objs|
  {
    if objs != [] {
      assert objs[0] in objs;
      assert forall c :: c in objs[1..] ==> c in objs;
      PushedWalk(g, height, objs[1..], depth, bound);
      var later := Pushed(g, objs[1..], depth).value;
      var first := Fill(g, objs[0], depth).value;
      assert Bounded(g, height, first, bound);
      WalkStackAppend(g, height, later, first, bound);
    }
  }

  /** The strong children of a genuine entry are ranked below its parent. */
  lemma ChildrenBelow(g: ObjectGraph, height: Path -> nat, e: Entry)
    requires Acyclic(g, height) && Genuine(g, e)
    ensures BelowAll(g, height, Children(e.value), height(e.parent.path))
  {
    forall c | c in Children(e.value)
      ensures height(c.path) < height(e.parent.path) && g.ids(c).Ok?
    {
      assert c in Children(ToOption(g.value(e.parent, e.property)));
    }
  }

  /** Walking what `next` pushes for an entry is walking below that entry. */
  lemma PushedBelow(g: ObjectGraph, height: Path -> nat, e: Entry, bound: nat)
    requires Acyclic(g, height) && Genuine(g, e) && height(e.parent.path) < bound
    ensures Pushed(g, Children(e.value), e.depth).Ok?
    ensures Bounded(g, height, Pushed(g, Children(e.value), e.depth).value, bound)
    ensures Walk(g, height, e) == [e] + WalkStack(g, height, Pushed(g, Children(e.value), e.depth).value, bound)
  {
    var children := Children(e.value);
    var h := height(e.parent.path);
    ChildrenBelow(g, height, e);
    PushedWalk(g, height, children, e.depth, h);
    assert BelowAll(g, height, children, bound);
    PushedWalk(g, height, children, e.depth, bound);
    WalkStackBound(g, height, Pushed(g, children, e.depth).value, h, bound);
  }

  lemma AppendAssoc<T>(a: seq<T>, b: seq<T>, c: seq<T>)
    ensures (a + b) + c == a + (b + c)
  {
  }

  /** A stack's walk starts with the walk of its top entry. */
  lemma WalkStackTop(g: ObjectGraph, height: Path -> nat, st: seq<Entry>, bound: nat)
    requires Acyclic(g, height) && Bounded(g, height, st, bound) && st != []
    ensures Bounded(g, height, st[..|st| - 1], bound)
    ensures WalkStack(g, height, st, bound)
         == Walk(g, height, st[|st| - 1]) + WalkStack(g, height, st[..|st| - 1], bound)
  {
  }

  /** One `next` on a walkable stack yields the head of its walk and leaves a
      walkable stack whose walk is the rest. */
  lemma NextWalk(g: ObjectGraph, height: Path -> nat, st: seq<Entry>, bound: nat)
    requires Acyclic(g, height) && Bounded(g, height, st, bound) && st != []
    ensures var top := st[|st| - 1];
      var pushed := Pushed(g, Children(top.value), top.depth);
      && pushed.Ok?
      && Bounded(g, height, st[..|st| - 1] + pushed.value, bound)
      && WalkStack(g, height, st, bound)
         == [top] + WalkStack(g, height, st[..|st| - 1] + pushed.value, bound)
  {
    var top := st[|st| - 1];
    var rest := st[..|st| - 1];
    PushedBelow(g, height, top, bound);
    var pushed := Pushed(g, Children(top.value), top.depth).value;
    WalkStackTop(g, height, st, bound);
    WalkStackAppend(g, height, rest, pushed, bound);
    AppendAssoc([top], WalkStack(g, height, pushed, bound), WalkStack(g, height, rest, bound));
  }

  /** Pre-order: an entry is yielded before everything below it, and
      everything below it is deeper. */
  lemma WalkDeeper(g: ObjectGraph, height: Path -> nat, e: Entry)
    requires Acyclic(g, height) && Genuine(g, e)
    ensures Walk(g, height, e)[0] == e
    ensures forall i :: 0 < i < |Walk(g, height, e)| ==> Walk(g, height, e)[i].depth > e.depth
    decreases height(e.parent.path), 2, 0
  {
    var children := Children(e.value);
    WalkObjectsDeeper(g, height, children, e.depth, height(e.parent.path));
  }

  lemma WalkObjectsDeeper(g: ObjectGraph, height: Path -> nat, objs: seq<Object>, depth: nat, bound: nat)
    requires Acyclic(g, height) && BelowAll(g, height, objs, bound)
    ensures forall i :: 0 <= i < |WalkObjects(g, height, objs, depth, bound)| ==>
      WalkObjects(g, height, objs, depth, bound)[i].depth > depth
    decreases bound, 1, |objs|
  {
    if objs != [] {
      assert objs[0] in objs;
      assert forall c :: c in objs[1..] ==> c in objs;
      WalkStackDeeper(g, height, Fill(g, objs[0], depth).value, bound, depth);
      WalkObjectsDeeper(g, height, objs[1..], depth, bound);
    }
  }

  lemma WalkStackDeeper(g: ObjectGraph, height: Path -> nat, st: seq<Entry>, bound: nat, depth: nat)
    requires Acyclic(g, height) && Bounded(g, height, st, bound)
    requires forall i :: 0 <= i < |st| ==> st[i].depth > depth
    ensures forall i :: 0 <= i < |WalkStack(g, height, st, bound)| ==>
      WalkStack(g, height, st, bound)[i].depth > depth
    decreases bound, 0, |st|
  {
    if st != [] {
      WalkDeeper(g, height, st[|st| - 1]);
      var st' := st[..|st| - 1];
      assert Bounded(g, height, st', bound);
      WalkStackDeeper(g, height, st', bound, depth);
    }
  }

  /** Of one object's entries, the last pid's is yielded first. */
  lemma LastPidFirst(g: ObjectGraph, height: Path -> nat, o: Object, depth: nat, bound: nat)
    requires Acyclic(g, height) && g.ids(o).Ok? && |g.ids(o).value| > 0
    requires height(o.path) < bound
    ensures var es := Fill(g, o, depth).value;
      Bounded(g, height, es, bound)
      && WalkStack(g, height, es, bound)[0].property == g.ids(o).value[|es| - 1]
  {
    var es := Fill(g, o, depth).value;
    assert Bounded(g, height, es, bound);
    WalkDeeper(g, height, es[|es| - 1]);
  }

  /** A ranking by path length, capped at `k` levels. */
  function DepthRank(k: nat): Path -> nat
  {
    (p: Path) => if |p| <= k then k - |p| else 0
  }

  /** A file whose storage paths have at most `k` names, and in which every
      object a strong reference names has readable properties, satisfies
      `Acyclic` under `DepthRank(k)`: strong children sit one level deeper. */
  lemma FileAcyclic(f: AAFFile, fuel: nat, k: nat)
    requires forall p :: p in f.storage.entries ==> |p| <= k
    requires forall o: Object, pid: u16, c: Object ::
      c in Children(ToOption(GetValue(f, o, pid, fuel))) ==> AllPropertyIds(f, c).Ok?
    ensures Acyclic(GraphOf(f, fuel), DepthRank(k))
  {
    var g := GraphOf(f, fuel);
    var h := DepthRank(k);
    forall o: Object, pid: u16, c: Object | c in Children(ToOption(g.value(o, pid)))
      ensures h(c.path) < h(o.path) && g.ids(c).Ok?
    {
      assert g.value(o, pid) == GetValue(f, o, pid, fuel);
      var prop := RawPropertyByPid(f, o, pid).value;
      assert GetValue(f, o, pid, fuel) == ResolvePropertyValue(f, o, prop, fuel);
      StrongChildBelow(f, o, prop, fuel, c);
    }
  }
}
