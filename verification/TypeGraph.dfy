/** amf/encode.go, typeFields: breadth-first search over embedded structs. */
module TypeGraph {
  import opened ByteCodec
  import opened Results
  import opened Sorting

  type TypeId = nat

  /** A struct field, with its tag already parsed. typ is the field's type after
      following an unnamed pointer. */
  datatype FieldDecl = FieldDecl(
    name: Bytes, exported: bool, anonymous: bool, skipped: bool, tagName: Bytes, omitEmpty: bool, typ: TypeId)

  /** The struct types of a program; a type outside the map is of another kind. */
  type Graph = map<TypeId, seq<FieldDecl>>

  datatype Field = Field(name: Bytes, tagged: bool, index: seq<nat>, typ: TypeId, omitEmpty: bool)

  datatype Queued = Queued(typ: TypeId, index: seq<nat>)

  predicate Visible(g: Graph, d: FieldDecl) {
    !d.skipped && (d.exported || (d.anonymous && d.typ in g))
  }

  /** The field becomes a member itself. */
  predicate Recorded(g: Graph, d: FieldDecl) {
    Visible(g, d) && (d.tagName != [] || !d.anonymous || d.typ !in g)
  }

  /** The field's own fields are looked for in its place. */
  predicate Embedded(g: Graph, d: FieldDecl) {
    Visible(g, d) && d.tagName == [] && d.anonymous && d.typ in g
  }

  function MakeField(d: FieldDecl, index: seq<nat>): Field {
    Field(if d.tagName != [] then d.tagName else d.name, d.tagName != [], index, d.typ, d.omitEmpty)
  }

  /** The type that an index path of embedded fields leads to. */
  function Follow(g: Graph, root: TypeId, path: seq<nat>): Option<TypeId> {
    if path == [] then
      Some(root)
    else
      var i := path[|path| - 1];
      match Follow(g, root, path[..|path| - 1])
      case None => None
      case Some(t) =>
        if t in g && i < |g[t]| && Embedded(g, g[t][i]) then Some(g[t][i].typ) else None
  }

  /** A scanned type: the path it was reached by, and whether it had been queued more
      than once. */
  datatype Visit = Visit(typ: TypeId, path: seq<nat>, twice: bool)

  /** What scanning the first n fields of a type appends to the result. */
  function RecordsOf(g: Graph, v: Visit, n: nat): seq<Field>
    requires v.typ in g && n <= |g[v.typ]|
  {
    if n == 0 then []
    else RecordsOf(g, v, n - 1) + RecordOf(g, v, n - 1)
  }

  function RecordOf(g: Graph, v: Visit, i: nat): seq<Field>
    requires v.typ in g && i < |g[v.typ]|
  {
    var f := MakeField(g[v.typ][i], v.path + [i]);
    if !Recorded(g, g[v.typ][i]) then [] else if v.twice then [f, f] else [f]
  }

  predicate Scannable(g: Graph, order: seq<Visit>) {
    forall v | v in order :: v.typ in g
  }

  function AllRecords(g: Graph, order: seq<Visit>): seq<Field>
    requires Scannable(g, order)
  {
    if order == [] then []
    else
      var v := order[|order| - 1];
      AllRecords(g, order[..|order| - 1]) + RecordsOf(g, v, |g[v.typ]|)
  }

  /** The embedded fields of type t in the struct of visit v. */
  ghost function EdgesTo(g: Graph, v: Visit, n: nat, t: TypeId): set<(Visit, nat)>
    requires v.typ in g && n <= |g[v.typ]|
  {
    set i | 0 <= i < n && Embedded(g, g[v.typ][i]) && g[v.typ][i].typ == t :: (v, i)
  }

  /** The embedded fields of type t in the structs scanned at depth d. */
  ghost function Parents(g: Graph, order: seq<Visit>, d: int, t: TypeId): set<(Visit, nat)>
    requires Scannable(g, order)
  {
    set v, i | v in order && |v.path| == d && i in Indices(g, v, t) :: (v, i)
  }

  ghost function Indices(g: Graph, v: Visit, t: TypeId): set<nat>
    requires v.typ in g
  {
    set i | 0 <= i < |g[v.typ]| && Embedded(g, g[v.typ][i]) && g[v.typ][i].typ == t
  }

  function CountOf(m: map<TypeId, nat>, t: TypeId): nat {
    if t in m then m[t] else 0
  }

  /** Index paths in the order of the search: shorter ones first, then by index sequence. */
  predicate Earlier(p: seq<nat>, q: seq<nat>) {
    |p| < |q| || (|p| == |q| && Less(p, q))
  }

  predicate NoLater(p: seq<nat>, q: seq<nat>) {
    p == q || Earlier(p, q)
  }

  lemma {:induction false} LessSnoc(p: seq<nat>, q: seq<nat>, i: nat, j: nat)
    requires |p| == |q| && Less(p, q)
    ensures Less(p + [i], q + [j])
  {
    assert (p + [i])[1..] == p[1..] + [i] && (q + [j])[1..] == q[1..] + [j];
    if p[0] == q[0] {
      LessSnoc(p[1..], q[1..], i, j);
    }
  }

  lemma {:induction false} LessLast(p: seq<nat>, i: nat, j: nat)
    requires i < j
    ensures Less(p + [i], p + [j])
  {
    if p != [] {
      assert (p + [i])[1..] == p[1..] + [i] && (p + [j])[1..] == p[1..] + [j];
      LessLast(p[1..], i, j);
    }
  }

  lemma NoLaterSnoc(p: seq<nat>, q: seq<nat>, i: nat)
    requires NoLater(p, q)
    ensures NoLater(p + [i], q + [i])
  {
    if |p| == |q| && p != q {
      LessSnoc(p, q, i, i);
    }
  }

  lemma NoLaterTransitive(p: seq<nat>, q: seq<nat>, r: seq<nat>)
    requires NoLater(p, q) && NoLater(q, r)
    ensures NoLater(p, r)
  {
    if |p| == |q| == |r| && p != q && q != r {
      LessTransitive(p, q, r);
    }
  }

  lemma NoLaterBoth(p: seq<nat>, q: seq<nat>)
    requires NoLater(p, q) && NoLater(q, p)
    ensures p == q
  {
    if p != q {
      LessAsymmetric(p, q);
    }
  }

  ghost predicate Queues(q: seq<Queued>, t: TypeId) {
    exists j :: 0 <= j < |q| && q[j].typ == t
  }

  /** A queue holds each type once, and its counter says which types it holds. */
  ghost predicate QueueOk(q: seq<Queued>, count: map<TypeId, nat>) {
    && (forall i, j | 0 <= i < j < |q| :: q[i].typ != q[j].typ)
    && (forall t :: Queues(q, t) <==> CountOf(count, t) > 0)
  }

  /** q is one of the first n fields, embedded, of the struct of visit v. */
  ghost predicate EmbeddedIn(g: Graph, v: Visit, n: nat, q: Queued)
    requires v.typ in g && n <= |g[v.typ]|
  {
    exists i: nat :: i < n && Embedded(g, g[v.typ][i]) && q == Queued(g[v.typ][i].typ, v.path + [i])
  }

  /** Type t is queued, if not before, then for a path no later than p. */
  ghost predicate QueuedWith(next: seq<Queued>, next': seq<Queued>, t: TypeId, p: seq<nat>) {
    exists e :: e in next' && e.typ == t && (e in next || NoLater(e.index, p))
  }

  /** What the first n fields of the struct of visit v add to the queue. */
  ghost predicate Grown(g: Graph, v: Visit, n: nat, next: seq<Queued>, next': seq<Queued>)
    requires v.typ in g && n <= |g[v.typ]|
  {
    && next <= next'
    && (forall a | |next| <= a < |next'| :: EmbeddedIn(g, v, n, next'[a]))
    && (forall a, b | |next| <= a < b < |next'| :: Less(next'[a].index, next'[b].index))
    && (forall i | 0 <= i < n && Embedded(g, g[v.typ][i]) :: QueuedWith(next, next', g[v.typ][i].typ, v.path + [i]))
  }

  /** Record an anonymous struct to explore in the next round. */
  method Enqueue(t: TypeId, index: seq<nat>, next: seq<Queued>, nextCount: map<TypeId, nat>)
    returns (next': seq<Queued>, nextCount': map<TypeId, nat>)
    requires QueueOk(next, nextCount)
    ensures QueueOk(next', nextCount')
    ensures forall u :: CountOf(nextCount', u) == CountOf(nextCount, u) + if u == t then 1 else 0
    ensures Queues(next', t)
    ensures next' == next || (next' == next + [Queued(t, index)] && !Queues(next, t))
  {
    next' := next;
    nextCount' := nextCount[t := CountOf(nextCount, t) + 1];
    if nextCount'[t] == 1 {
      assert !Queues(next, t);
      next' := next + [Queued(t, index)];
      assert next'[|next|].typ == t;
      assert forall j | 0 <= j < |next| :: next'[j] == next[j];
    }
    assert forall u :: Queues(next', u) <==> Queues(next, u) || u == t;
  }

  /** After n fields of the struct of visit v: what has been recorded and queued. */
  ghost predicate Scanning(g: Graph, v: Visit, n: nat,
                           fields: seq<Field>, next: seq<Queued>, nextCount: map<TypeId, nat>,
                           fields': seq<Field>, next': seq<Queued>, nextCount': map<TypeId, nat>)
    requires v.typ in g && n <= |g[v.typ]|
  {
    && fields' == fields + RecordsOf(g, v, n)
    && QueueOk(next', nextCount')
    && (forall t :: CountOf(nextCount', t) == CountOf(nextCount, t) + |EdgesTo(g, v, n, t)|)
    && Grown(g, v, n, next, next')
  }

  /** The loop over the fields of one struct. */
  method ScanType(g: Graph, f: Queued, twice: bool, fields: seq<Field>, next: seq<Queued>, nextCount: map<TypeId, nat>)
    returns (fields': seq<Field>, next': seq<Queued>, nextCount': map<TypeId, nat>)
    requires f.typ in g && QueueOk(next, nextCount)
    ensures Scanning(g, Visit(f.typ, f.index, twice), |g[f.typ]|, fields, next, nextCount, fields', next', nextCount')
  {
    ghost var v := Visit(f.typ, f.index, twice);
    fields', next', nextCount' := fields, next, nextCount;
    for i := 0 to |g[f.typ]|
      invariant Scanning(g, v, i, fields, next, nextCount, fields', next', nextCount')
    {
      hide *;
      ghost var fields1, next1, nextCount1 := fields', next', nextCount';
      ScanningQueue(g, v, i, fields, next, nextCount, fields1, next1, nextCount1);
      fields', next', nextCount' := ScanField(g, f, twice, i, fields', next', nextCount');
      ScanningNext(g, v, i, fields, next, nextCount, fields1, next1, nextCount1, fields', next', nextCount');
    }
  }

  lemma ScanningQueue(g: Graph, v: Visit, n: nat,
                      fields: seq<Field>, next: seq<Queued>, nextCount: map<TypeId, nat>,
                      fields': seq<Field>, next': seq<Queued>, nextCount': map<TypeId, nat>)
    requires v.typ in g && n <= |g[v.typ]| && Scanning(g, v, n, fields, next, nextCount, fields', next', nextCount')
    ensures QueueOk(next', nextCount')
  {
  }

  lemma RecordsStep(g: Graph, v: Visit, i: nat, fields0: seq<Field>, fields: seq<Field>)
    requires v.typ in g && i < |g[v.typ]| && fields == fields0 + RecordsOf(g, v, i)
    ensures fields0 + RecordsOf(g, v, i + 1) == fields + RecordOf(g, v, i)
    ensures RecordOf(g, v, i) == [] ==> fields0 + RecordsOf(g, v, i + 1) == fields
  {
    assert fields0 + (RecordsOf(g, v, i) + RecordOf(g, v, i)) == fields + RecordOf(g, v, i);
  }

  /** One field. */
  method ScanField(g: Graph, f: Queued, twice: bool, i: nat,
                   fields: seq<Field>, next: seq<Queued>, nextCount: map<TypeId, nat>)
    returns (fields': seq<Field>, next': seq<Queued>, nextCount': map<TypeId, nat>)
    requires f.typ in g && i < |g[f.typ]| && QueueOk(next, nextCount)
    ensures fields' == fields + RecordOf(g, Visit(f.typ, f.index, twice), i)
    ensures QueueOk(next', nextCount') && FieldQueued(g, Visit(f.typ, f.index, twice), i, next, nextCount, next', nextCount')
  {
    hide QueueOk;
    var sf := g[f.typ][i];
    fields', next', nextCount' := fields, next, nextCount;
    if (if sf.anonymous then !sf.exported && sf.typ !in g else !sf.exported) || sf.skipped {
      // Not a member: an unexported field, or one whose tag is "-".
    } else if sf.tagName != [] || !sf.anonymous || sf.typ !in g {
      var field := MakeField(sf, f.index + [i]);
      fields' := fields + [field];
      if twice {
        fields' := fields' + [field];
        assert fields' == fields + [field, field];
      }
    } else {
      next', nextCount' := Enqueue(sf.typ, f.index + [i], next, nextCount);
    }
  }

  /** What field i of the struct of visit v does to the queue. */
  ghost predicate FieldQueued(g: Graph, v: Visit, i: nat, next: seq<Queued>, nextCount: map<TypeId, nat>,
                              next': seq<Queued>, nextCount': map<TypeId, nat>)
    requires v.typ in g && i < |g[v.typ]|
  {
    var d := g[v.typ][i];
    && (if Embedded(g, d) then Queues(next', d.typ) else next' == next)
    && (next' == next || next' == next + [Queued(d.typ, v.path + [i])])
    && forall t :: CountOf(nextCount', t) == CountOf(nextCount, t) + if Embedded(g, d) && d.typ == t then 1 else 0
  }

  lemma ScanningNext(g: Graph, v: Visit, i: nat,
                     fields0: seq<Field>, next0: seq<Queued>, nextCount0: map<TypeId, nat>,
                     fields: seq<Field>, next: seq<Queued>, nextCount: map<TypeId, nat>,
                     fields': seq<Field>, next': seq<Queued>, nextCount': map<TypeId, nat>)
    requires v.typ in g && i < |g[v.typ]|
    requires Scanning(g, v, i, fields0, next0, nextCount0, fields, next, nextCount)
    requires fields' == fields + RecordOf(g, v, i)
    requires QueueOk(next', nextCount') && FieldQueued(g, v, i, next, nextCount, next', nextCount')
    ensures Scanning(g, v, i + 1, fields0, next0, nextCount0, fields', next', nextCount')
  {
    hide Grown, QueueOk, Embedded, RecordOf, RecordsOf, EdgesTo;
    GrownStep(g, v, i, next0, next, next');
    EdgesStep(g, v, i);
    RecordsStep(g, v, i, fields0, fields);
    ScanningParts(g, v, i + 1, fields0, next0, nextCount0, fields', next', nextCount');
  }

  lemma ScanningParts(g: Graph, v: Visit, n: nat,
                      fields: seq<Field>, next: seq<Queued>, nextCount: map<TypeId, nat>,
                      fields': seq<Field>, next': seq<Queued>, nextCount': map<TypeId, nat>)
    requires v.typ in g && n <= |g[v.typ]|
    requires fields' == fields + RecordsOf(g, v, n) && QueueOk(next', nextCount')
    requires forall t :: CountOf(nextCount', t) == CountOf(nextCount, t) + |EdgesTo(g, v, n, t)|
    requires Grown(g, v, n, next, next')
    ensures Scanning(g, v, n, fields, next, nextCount, fields', next', nextCount')
  {
  }

  lemma GrownStep(g: Graph, v: Visit, i: nat, next0: seq<Queued>, next: seq<Queued>, next': seq<Queued>)
    requires v.typ in g && i < |g[v.typ]| && Grown(g, v, i, next0, next)
    requires if Embedded(g, g[v.typ][i]) then Queues(next', g[v.typ][i].typ) else next' == next
    requires next' == next || next' == next + [Queued(g[v.typ][i].typ, v.path + [i])]
    ensures Grown(g, v, i + 1, next0, next')
  {
    hide Less, Embedded;
    forall a | |next0| <= a < |next| ensures EmbeddedIn(g, v, i + 1, next[a]) && Less(next[a].index, v.path + [i]) {
      assert EmbeddedIn(g, v, i, next[a]);
      var j: nat :| j < i && Embedded(g, g[v.typ][j]) && next[a] == Queued(g[v.typ][j].typ, v.path + [j]);
      LessLast(v.path, j, i);
    }
    forall j | 0 <= j < i && Embedded(g, g[v.typ][j]) ensures QueuedWith(next0, next', g[v.typ][j].typ, v.path + [j]) {
      var e :| e in next && e.typ == g[v.typ][j].typ && (e in next0 || NoLater(e.index, v.path + [j]));
      assert e in next';
    }
    if Embedded(g, g[v.typ][i]) {
      var a :| 0 <= a < |next'| && next'[a].typ == g[v.typ][i].typ;
      var e := next'[a];
      if a < |next0| {
        assert e == next0[a];
      } else if a < |next| {
        assert Earlier(e.index, v.path + [i]) by {
          assert EmbeddedIn(g, v, i, next[a]);
          var j: nat :| j < i && e == Queued(g[v.typ][j].typ, v.path + [j]);
        }
      }
      assert QueuedWith(next0, next', g[v.typ][i].typ, v.path + [i]);
    }
  }

  lemma EdgesStep(g: Graph, v: Visit, i: nat)
    requires v.typ in g && i < |g[v.typ]|
    ensures forall t :: EdgesTo(g, v, i + 1, t) == EdgesTo(g, v, i, t)
              + (if Embedded(g, g[v.typ][i]) && g[v.typ][i].typ == t then {(v, i)} else {})
    ensures forall t :: |EdgesTo(g, v, i + 1, t)| == |EdgesTo(g, v, i, t)|
              + (if Embedded(g, g[v.typ][i]) && g[v.typ][i].typ == t then 1 else 0)
  {
    forall t
      ensures EdgesTo(g, v, i + 1, t) == EdgesTo(g, v, i, t)
                + (if Embedded(g, g[v.typ][i]) && g[v.typ][i].typ == t then {(v, i)} else {})
      ensures |EdgesTo(g, v, i + 1, t)| == |EdgesTo(g, v, i, t)|
                + (if Embedded(g, g[v.typ][i]) && g[v.typ][i].typ == t then 1 else 0)
    {
      assert (v, i) !in EdgesTo(g, v, i, t);
      var more := if Embedded(g, g[v.typ][i]) && g[v.typ][i].typ == t then {(v, i)} else {};
      assert EdgesTo(g, v, i + 1, t) == EdgesTo(g, v, i, t) + more;
    }
  }

  // ---- The search, level by level

  /** Type t is scanned, by a path no later than p. */
  ghost predicate Reached(order: seq<Visit>, t: TypeId, p: seq<nat>) {
    exists w :: w in order && w.typ == t && NoLater(w.path, p)
  }

  /** Each type once, by a path that leads to it, in the order of the paths, flagged when
      two or more fields of the structs one level up embed it. */
  ghost predicate OrderOk(g: Graph, root: TypeId, order: seq<Visit>) {
    && Scannable(g, order)
    && (forall v | v in order :: Follow(g, root, v.path) == Some(v.typ))
    && (forall a, b | 0 <= a < b < |order| :: order[a].typ != order[b].typ)
    && Ascending(order)
    && (forall v | v in order :: v.twice <==> |Parents(g, order, |v.path| - 1, v.typ)| > 1)
  }

  ghost predicate Ascending(order: seq<Visit>) {
    forall a, b | 0 <= a < b < |order| :: Earlier(order[a].path, order[b].path)
  }

  ghost predicate QueuedBy(q: seq<Queued>, t: TypeId, p: seq<nat>) {
    exists e :: e in q && e.typ == t && NoLater(e.index, p)
  }

  /** The entries of a level: each type once, by index sequence, all after what was scanned
      before them and before what they are about to embed. */
  ghost predicate Lined(order: seq<Visit>, k: nat, current: seq<Queued>, next: seq<Queued>) {
    && (forall a, b | 0 <= a < b < |current| :: current[a].typ != current[b].typ && Less(current[a].index, current[b].index))
    && (forall a, b | 0 <= a < b < |next| :: Less(next[a].index, next[b].index))
    && (forall v, c | v in order && |v.path| == k && c in current :: v.typ != c.typ && Less(v.path, c.index))
    && (forall e, c | e in next && c in current :: |e.index| == k + 1 && Less(e.index[..k], c.index))
  }

  ghost predicate Pending(g: Graph, root: TypeId, q: seq<Queued>, k: nat) {
    forall e | e in q :: e.typ in g && |e.index| == k && Follow(g, root, e.index) == Some(e.typ)
  }

  /** What a scanned struct embeds is scanned at most one level deeper, or queued. */
  ghost predicate Closed(g: Graph, order: seq<Visit>, k: nat, current: seq<Queued>, next: seq<Queued>)
    requires Scannable(g, order)
  {
    forall v, i | v in order && 0 <= i < |g[v.typ]| && Embedded(g, g[v.typ][i]) ::
      var t := g[v.typ][i].typ;
      || Reached(order, t, v.path + [i])
      || (|v.path| == k - 1 && QueuedBy(current, t, v.path + [i]))
      || (|v.path| == k && QueuedBy(next, t, v.path + [i]))
  }

  ghost predicate VisitedOk(order: seq<Visit>, visited: set<TypeId>) {
    forall t :: t in visited <==> exists v :: v in order && v.typ == t
  }

  /** While level k is being scanned: current are the entries still to look at. */
  ghost predicate Level(g: Graph, root: TypeId, order: seq<Visit>, k: nat, visited: set<TypeId>,
                        current: seq<Queued>, count: map<TypeId, nat>,
                        next: seq<Queued>, nextCount: map<TypeId, nat>)
  {
    && OrderOk(g, root, order)
    && (forall v | v in order :: |v.path| <= k)
    && VisitedOk(order, visited) && visited <= g.Keys
    && Pending(g, root, current, k) && Pending(g, root, next, k + 1)
    && QueueOk(next, nextCount)
    && (forall t :: CountOf(count, t) == |Parents(g, order, k - 1, t)|)
    && (forall t :: CountOf(nextCount, t) == |Parents(g, order, k, t)|)
    && Closed(g, order, k, current, next)
    && Lined(order, k, current, next)
  }

  lemma ParentsOfScanned(g: Graph, order: seq<Visit>, v: Visit, t: TypeId)
    requires Scannable(g, order) && v.typ in g && v !in order
    ensures Parents(g, order + [v], |v.path|, t) == Parents(g, order, |v.path|, t) + EdgesTo(g, v, |g[v.typ]|, t)
    ensures |Parents(g, order + [v], |v.path|, t)| == |Parents(g, order, |v.path|, t)| + |EdgesTo(g, v, |g[v.typ]|, t)|
    ensures forall d | d < |v.path| :: Parents(g, order + [v], d, t) == Parents(g, order, d, t)
  {
    var a, b := Parents(g, order, |v.path|, t), EdgesTo(g, v, |g[v.typ]|, t);
    assert a !! b;
    assert Parents(g, order + [v], |v.path|, t) == a + b;
  }

  /** An entry of an already scanned type is skipped. */
  lemma SkipStep(g: Graph, root: TypeId, order: seq<Visit>, k: nat, visited: set<TypeId>,
                 current: seq<Queued>, count: map<TypeId, nat>, next: seq<Queued>, nextCount: map<TypeId, nat>)
    requires Level(g, root, order, k, visited, current, count, next, nextCount)
    requires current != [] && current[0].typ in visited
    ensures Level(g, root, order, k, visited, current[1..], count, next, nextCount)
  {
    VisitedReached(g, root, order, k, visited, current, count, next, nextCount);
    forall v, i | v in order && 0 <= i < |g[v.typ]| && Embedded(g, g[v.typ][i])
      ensures var t := g[v.typ][i].typ;
              || Reached(order, t, v.path + [i])
              || (|v.path| == k - 1 && QueuedBy(current[1..], t, v.path + [i]))
              || (|v.path| == k && QueuedBy(next, t, v.path + [i]))
    {
      PopQueue(current, g[v.typ][i].typ, v.path + [i]);
      ReachedLater(order, current[0].typ, current[0].index, v.path + [i]);
    }
    assert forall c | c in current[1..] :: c in current;
  }

  lemma ReachedLater(order: seq<Visit>, t: TypeId, p: seq<nat>, q: seq<nat>)
    requires Reached(order, t, p)
    ensures NoLater(p, q) ==> Reached(order, t, q)
  {
    var w :| w in order && w.typ == t && NoLater(w.path, p);
    if NoLater(p, q) {
      NoLaterTransitive(w.path, p, q);
    }
  }

  lemma PopQueue(q: seq<Queued>, t: TypeId, p: seq<nat>)
    requires q != []
    ensures QueuedBy(q, t, p) ==> (q[0].typ == t && NoLater(q[0].index, p)) || QueuedBy(q[1..], t, p)
  {
    if QueuedBy(q, t, p) {
      var e :| e in q && e.typ == t && NoLater(e.index, p);
      assert e == q[0] || e in q[1..];
    }
  }

  /** What ScanType does to the queue of the next level. */
  ghost predicate Scanned(g: Graph, v: Visit, next: seq<Queued>, nextCount: map<TypeId, nat>,
                          next': seq<Queued>, nextCount': map<TypeId, nat>)
  {
    v.typ in g && exists fields, fields' ::
      Scanning(g, v, |g[v.typ]|, fields, next, nextCount, fields', next', nextCount')
  }

  lemma ScannedGrown(g: Graph, v: Visit, next: seq<Queued>, nextCount: map<TypeId, nat>,
                     next': seq<Queued>, nextCount': map<TypeId, nat>)
    requires Scanned(g, v, next, nextCount, next', nextCount')
    ensures Grown(g, v, |g[v.typ]|, next, next')
  {
  }

  lemma ScannedQueue(g: Graph, v: Visit, next: seq<Queued>, nextCount: map<TypeId, nat>,
                     next': seq<Queued>, nextCount': map<TypeId, nat>)
    requires Scanned(g, v, next, nextCount, next', nextCount')
    ensures QueueOk(next', nextCount')
  {
  }

  lemma FlagKept(g: Graph, order: seq<Visit>, v: Visit, w: Visit)
    requires Scannable(g, order) && v.typ in g && v !in order && |w.path| <= |v.path|
    ensures Parents(g, order + [v], |w.path| - 1, w.typ) == Parents(g, order, |w.path| - 1, w.typ)
  {
    ParentsOfScanned(g, order, v, w.typ);
  }

  lemma ScanOrder(g: Graph, root: TypeId, order: seq<Visit>, v: Visit)
    requires OrderOk(g, root, order) && v.typ in g && Follow(g, root, v.path) == Some(v.typ)
    requires forall w | w in order :: w.typ != v.typ && Earlier(w.path, v.path)
    requires v.twice <==> |Parents(g, order, |v.path| - 1, v.typ)| > 1
    ensures OrderOk(g, root, order + [v])
  {
    hide Parents, Follow;
    forall w | w in order + [v]
      ensures w.twice <==> |Parents(g, order + [v], |w.path| - 1, w.typ)| > 1
    {
      FlagKept(g, order, v, w);
    }
  }

  lemma NextIsEarlier(order: seq<Visit>, k: nat, current: seq<Queued>, next: seq<Queued>, e: Queued, i: nat)
    requires Lined(order, k, current, next) && current != [] && e in next && |current[0].index| == k
    ensures Less(e.index, current[0].index + [i]) && NoLater(e.index, current[0].index + [i])
  {
    assert current[0] in current;
    LessSnoc(e.index[..k], current[0].index, e.index[k], i);
    assert e.index == e.index[..k] + [e.index[k]];
  }

  lemma ScanClosed(g: Graph, order: seq<Visit>, v: Visit, current: seq<Queued>,
                   next: seq<Queued>, nextCount: map<TypeId, nat>,
                   next': seq<Queued>, nextCount': map<TypeId, nat>)
    requires Scannable(g, order) && Closed(g, order, |v.path|, current, next)
    requires current != [] && current[0] == Queued(v.typ, v.path) && Lined(order, |v.path|, current, next)
    requires Scanned(g, v, next, nextCount, next', nextCount')
    ensures Closed(g, order + [v], |v.path|, current[1..], next')
  {
    forall w, i | w in order + [v] && 0 <= i < |g[w.typ]| && Embedded(g, g[w.typ][i])
      ensures var t := g[w.typ][i].typ;
              || Reached(order + [v], t, w.path + [i])
              || (|w.path| == |v.path| - 1 && QueuedBy(current[1..], t, w.path + [i]))
              || (|w.path| == |v.path| && QueuedBy(next', t, w.path + [i]))
    {
      var t, p := g[w.typ][i].typ, w.path + [i];
      if w == v {
        var e :| e in next' && e.typ == t && (e in next || NoLater(e.index, p));
        if e in next {
          NextIsEarlier(order, |v.path|, current, next, e, i);
        }
        assert QueuedBy(next', t, p);
      } else if Reached(order, t, p) {
        ReachedGrows(order, order + [v], t, p);
      } else if |w.path| == |v.path| - 1 && QueuedBy(current, t, p) {
        PopQueue(current, t, p);
        assert v in order + [v];
      } else {
        var e :| e in next && e.typ == t && NoLater(e.index, p);
        assert e in next';
      }
    }
  }

  lemma ScanPending(g: Graph, root: TypeId, v: Visit, next: seq<Queued>, nextCount: map<TypeId, nat>,
                    next': seq<Queued>, nextCount': map<TypeId, nat>)
    requires Follow(g, root, v.path) == Some(v.typ)
    requires Pending(g, root, next, |v.path| + 1) && Scanned(g, v, next, nextCount, next', nextCount')
    ensures Pending(g, root, next', |v.path| + 1)
  {
    forall e | e in next'
      ensures e.typ in g && |e.index| == |v.path| + 1 && Follow(g, root, e.index) == Some(e.typ)
    {
      var a :| 0 <= a < |next'| && next'[a] == e;
      if a < |next| {
        assert e == next[a];
      } else {
        var i: nat :| i < |g[v.typ]| && Embedded(g, g[v.typ][i]) && e == Queued(g[v.typ][i].typ, v.path + [i]);
        assert (v.path + [i])[..|v.path|] == v.path;
      }
    }
  }

  lemma NewEntry(g: Graph, v: Visit, next: seq<Queued>, nextCount: map<TypeId, nat>,
                 next': seq<Queued>, nextCount': map<TypeId, nat>, a: nat) returns (i: nat)
    requires Scanned(g, v, next, nextCount, next', nextCount') && |next| <= a < |next'|
    ensures next'[a].index == v.path + [i]
  {
    ScannedGrown(g, v, next, nextCount, next', nextCount');
    assert EmbeddedIn(g, v, |g[v.typ]|, next'[a]);
    i :| i < |g[v.typ]| && Embedded(g, g[v.typ][i]) && next'[a] == Queued(g[v.typ][i].typ, v.path + [i]);
  }

  lemma ScanLined(g: Graph, order: seq<Visit>, v: Visit, current: seq<Queued>,
                  next: seq<Queued>, nextCount: map<TypeId, nat>,
                  next': seq<Queued>, nextCount': map<TypeId, nat>)
    requires current != [] && current[0] == Queued(v.typ, v.path) && Lined(order, |v.path|, current, next)
    requires Scanned(g, v, next, nextCount, next', nextCount')
    ensures Lined(order + [v], |v.path|, current[1..], next')
  {
    var k := |v.path|;
    forall a, b | 0 <= a < b < |next'| ensures Less(next'[a].index, next'[b].index) {
      if b < |next| {
        assert next'[a] == next[a] && next'[b] == next[b];
      } else if a < |next| {
        var i := NewEntry(g, v, next, nextCount, next', nextCount', b);
        assert next'[a] == next[a];
        NextIsEarlier(order, k, current, next, next[a], i);
      }
    }
    forall e, c | e in next' && c in current[1..] ensures |e.index| == k + 1 && Less(e.index[..k], c.index) {
      var a :| 0 <= a < |next'| && next'[a] == e;
      if a < |next| {
        assert e == next[a];
      } else {
        var i := NewEntry(g, v, next, nextCount, next', nextCount', a);
      }
    }
  }

  /** Scanning the type of the first entry keeps the level's invariant. */
  lemma ScanStep(g: Graph, root: TypeId, order: seq<Visit>, k: nat, visited: set<TypeId>, v: Visit,
                 current: seq<Queued>, count: map<TypeId, nat>, next: seq<Queued>, nextCount: map<TypeId, nat>,
                 next': seq<Queued>, nextCount': map<TypeId, nat>)
    requires Level(g, root, order, k, visited, current, count, next, nextCount)
    requires current != [] && v == Visit(current[0].typ, current[0].index, CountOf(count, current[0].typ) > 1)
    requires v.typ !in visited && Scanned(g, v, next, nextCount, next', nextCount')
    ensures Level(g, root, order + [v], k, visited + {v.typ}, current[1..], count, next', nextCount')
  {
    hide Parents, EdgesTo, Closed, OrderOk, VisitedOk, EmbeddedIn, Follow, Lined, Grown, Scanned, QueueOk;
    LevelFacts(g, root, order, k, visited, current, count, next, nextCount);
    assert current[0] in current;
    OrderEarlier(order, k, visited, current, next, v);
    ScanOrder(g, root, order, v);
    ScanLined(g, order, v, current, next, nextCount, next', nextCount');
    ScanClosed(g, order, v, current, next, nextCount, next', nextCount');
    ScanPending(g, root, v, next, nextCount, next', nextCount');
    ScanCounts(g, order, v, count, next, nextCount, next', nextCount');
    ScanVisited(order, visited, v);
    ScannedQueue(g, v, next, nextCount, next', nextCount');
    assert Pending(g, root, current[1..], k);
  }

  lemma OrderEarlier(order: seq<Visit>, k: nat, visited: set<TypeId>, current: seq<Queued>, next: seq<Queued>, v: Visit)
    requires VisitedOk(order, visited) && v.typ !in visited && Lined(order, k, current, next)
    requires current != [] && current[0] == Queued(v.typ, v.path) && |v.path| == k
    requires forall w | w in order :: |w.path| <= k
    ensures forall w | w in order :: w.typ != v.typ && Earlier(w.path, v.path)
  {
    assert current[0] in current;
  }

  lemma ScanVisited(order: seq<Visit>, visited: set<TypeId>, v: Visit)
    requires VisitedOk(order, visited)
    ensures VisitedOk(order + [v], visited + {v.typ})
  {
    forall t ensures t in visited + {v.typ} <==> exists w :: w in order + [v] && w.typ == t {
      if t in visited {
        var w :| w in order && w.typ == t;
        assert w in order + [v];
      }
      assert v in order + [v];
    }
  }

  lemma ScanCounts(g: Graph, order: seq<Visit>, v: Visit, count: map<TypeId, nat>,
                   next: seq<Queued>, nextCount: map<TypeId, nat>, next': seq<Queued>, nextCount': map<TypeId, nat>)
    requires Scannable(g, order) && v !in order && Scanned(g, v, next, nextCount, next', nextCount')
    requires forall t :: CountOf(count, t) == |Parents(g, order, |v.path| - 1, t)|
    requires forall t :: CountOf(nextCount, t) == |Parents(g, order, |v.path|, t)|
    ensures forall t :: CountOf(count, t) == |Parents(g, order + [v], |v.path| - 1, t)|
    ensures forall t :: CountOf(nextCount', t) == |Parents(g, order + [v], |v.path|, t)|
  {
    forall t
      ensures CountOf(count, t) == |Parents(g, order + [v], |v.path| - 1, t)|
      ensures CountOf(nextCount', t) == |Parents(g, order + [v], |v.path|, t)|
    {
      ParentsOfScanned(g, order, v, t);
    }
  }

  lemma LevelFacts(g: Graph, root: TypeId, order: seq<Visit>, k: nat, visited: set<TypeId>,
                   current: seq<Queued>, count: map<TypeId, nat>, next: seq<Queued>, nextCount: map<TypeId, nat>)
    requires Level(g, root, order, k, visited, current, count, next, nextCount)
    ensures Scannable(g, order) && QueueOk(next, nextCount) && visited <= g.Keys
    ensures current != [] ==> current[0].typ in g
  {
    if current != [] {
      assert current[0] in current;
    }
  }

  lemma VisitedReached(g: Graph, root: TypeId, order: seq<Visit>, k: nat, visited: set<TypeId>,
                       current: seq<Queued>, count: map<TypeId, nat>, next: seq<Queued>, nextCount: map<TypeId, nat>)
    requires Level(g, root, order, k, visited, current, count, next, nextCount)
    requires current != [] && current[0].typ in visited
    ensures Reached(order, current[0].typ, current[0].index)
  {
    assert current[0] in current;
    var w :| w in order && w.typ == current[0].typ;
    assert |w.path| < k;
  }

  lemma ReachedGrows(order: seq<Visit>, order': seq<Visit>, t: TypeId, p: seq<nat>)
    requires order <= order'
    ensures Reached(order, t, p) ==> Reached(order', t, p)
  {
    if Reached(order, t, p) {
      var w :| w in order && w.typ == t && NoLater(w.path, p);
      assert w in order';
    }
  }

  lemma LastReached(order: seq<Visit>, v: Visit)
    ensures Reached(order + [v], v.typ, v.path)
  {
    assert v in order + [v];
  }

  /** The loop over the entries of one level. */
  method ScanLevel(g: Graph, ghost root: TypeId, ghost order: seq<Visit>, ghost k: nat, visited: set<TypeId>,
                   current: seq<Queued>, count: map<TypeId, nat>, fields: seq<Field>)
    returns (visited': set<TypeId>, next: seq<Queued>, nextCount: map<TypeId, nat>, fields': seq<Field>,
             ghost order': seq<Visit>)
    requires Level(g, root, order, k, visited, current, count, [], map[])
    requires fields == AllRecords(g, order)
    ensures Level(g, root, order', k, visited', [], count, next, nextCount)
    ensures fields' == AllRecords(g, order')
    ensures visited <= visited' && order <= order'
    ensures visited' == visited ==> next == []
    ensures forall e | e in current :: Reached(order', e.typ, e.index)
  {
    hide Level, QueueOk, Parents, EdgesTo, EmbeddedIn, Reached;
    LevelFacts(g, root, order, k, visited, current, count, [], map[]);
    visited', next, nextCount, fields', order' := visited, [], map[], fields, order;
    for j := 0 to |current|
      invariant Level(g, root, order', k, visited', current[j..], count, next, nextCount)
      invariant Scannable(g, order') && fields' == AllRecords(g, order')
      invariant forall e | e in current[..j] :: Reached(order', e.typ, e.index)
      invariant visited <= visited' && order <= order'
      invariant visited' == visited ==> next == []
    {
      var f := current[j];
      assert f == current[j..][0] && current[j..][1..] == current[j + 1..];
      if f.typ in visited' {
        VisitedReached(g, root, order', k, visited', current[j..], count, next, nextCount);
        SkipStep(g, root, order', k, visited', current[j..], count, next, nextCount);
        continue;
      }
      LevelFacts(g, root, order', k, visited', current[j..], count, next, nextCount);
      ghost var v := Visit(f.typ, f.index, CountOf(count, f.typ) > 1);
      ghost var next0, nextCount0, order0 := next, nextCount, order';
      fields', next, nextCount := ScanType(g, f, CountOf(count, f.typ) > 1, fields', next, nextCount);
      ScanStep(g, root, order', k, visited', v, current[j..], count, next0, nextCount0, next, nextCount);
      LevelFacts(g, root, order' + [v], k, visited' + {v.typ}, current[j + 1..], count, next, nextCount);
      assert (order' + [v])[..|order'|] == order';
      visited', order' := visited' + {f.typ}, order' + [v];
      LastReached(order0, v);
      forall e | e in current[..j + 1] ensures Reached(order', e.typ, e.index) {
        ReachedGrows(order0, order', e.typ, e.index);
      }
    }
  }

  /** What the search promises: it starts at the root and is closed under embedding, each
      step no later than the path it takes. */
  ghost predicate ValidOrder(g: Graph, root: TypeId, order: seq<Visit>) {
    && OrderOk(g, root, order)
    && Reached(order, root, [])
    && forall v, i | v in order && 0 <= i < |g[v.typ]| && Embedded(g, g[v.typ][i]) ::
         Reached(order, g[v.typ][i].typ, v.path + [i])
  }

  lemma NextLevel(g: Graph, root: TypeId, order: seq<Visit>, k: nat, visited: set<TypeId>,
                  count: map<TypeId, nat>, next: seq<Queued>, nextCount: map<TypeId, nat>)
    requires Level(g, root, order, k, visited, [], count, next, nextCount)
    ensures Level(g, root, order, k + 1, visited, next, nextCount, [], map[])
  {
    var d := k + 1;
    forall t ensures Parents(g, order, d, t) == {} {
    }
  }

  /** The state of the search between two levels. */
  ghost predicate Round(g: Graph, root: TypeId, order: seq<Visit>, k: nat, visited: set<TypeId>,
                        next: seq<Queued>, nextCount: map<TypeId, nat>, fields: seq<Field>)
  {
    && Level(g, root, order, k, visited, next, nextCount, [], map[])
    && fields == AllRecords(g, order)
    && if k == 0 then next == [Queued(root, [])] else Reached(order, root, [])
  }

  lemma FirstRound(g: Graph, root: TypeId)
    requires root in g
    ensures Round(g, root, [], 0, {}, [Queued(root, [])], map[], [])
  {
  }

  lemma LastRound(g: Graph, root: TypeId, order: seq<Visit>, k: nat, visited: set<TypeId>,
                  nextCount: map<TypeId, nat>, fields: seq<Field>)
    requires Round(g, root, order, k, visited, [], nextCount, fields)
    ensures ValidOrder(g, root, order) && fields == AllRecords(g, order)
  {
  }

  method ScanRound(g: Graph, ghost root: TypeId, ghost order: seq<Visit>, ghost k: nat, visited: set<TypeId>,
                   current: seq<Queued>, count: map<TypeId, nat>, fields: seq<Field>)
    returns (visited': set<TypeId>, next: seq<Queued>, nextCount: map<TypeId, nat>, fields': seq<Field>,
             ghost order': seq<Visit>)
    requires Round(g, root, order, k, visited, current, count, fields)
    ensures Round(g, root, order', k + 1, visited', next, nextCount, fields')
    ensures |g.Keys - visited'| < |g.Keys - visited| || (visited' == visited && next == [])
  {
    visited', next, nextCount, fields', order' := ScanLevel(g, root, order, k, visited, current, count, fields);
    NextLevel(g, root, order', k, visited', count, next, nextCount);
    LevelFacts(g, root, order', k, visited', [], count, next, nextCount);
    ReachedGrows(order, order', root, []);
    hide Level, AllRecords;
    assert k == 0 ==> current[0] in current;
    Shrinks(g.Keys, visited, visited');
  }

  /** fields is what the search records. */
  ghost predicate Found(g: Graph, root: TypeId, fields: seq<Field>) {
    exists order :: ValidOrder(g, root, order) && fields == AllRecords(g, order)
  }

  /** The breadth-first search of typeFields: every field it appends, in order. */
  method Search(g: Graph, root: TypeId) returns (fields: seq<Field>, ghost order: seq<Visit>)
    requires root in g
    ensures ValidOrder(g, root, order)
    ensures fields == AllRecords(g, order) && Found(g, root, fields)
  {
    var next := [Queued(root, [])];
    var nextCount: map<TypeId, nat> := map[];
    var visited: set<TypeId> := {};
    ghost var k := 0;
    fields, order := [], [];
    hide *;
    FirstRound(g, root);
    while |next| > 0
      invariant Round(g, root, order, k, visited, next, nextCount, fields)
      invariant k == 0 ==> next != []
      decreases |g.Keys - visited|, |next|
    {
      visited, next, nextCount, fields, order := ScanRound(g, root, order, k, visited, next, nextCount, fields);
      k := k + 1;
    }
    LastRound(g, root, order, k, visited, nextCount, fields);
    FoundBy(g, root, order);
  }

  lemma FoundBy(g: Graph, root: TypeId, order: seq<Visit>)
    requires ValidOrder(g, root, order)
    ensures Scannable(g, order) && Found(g, root, AllRecords(g, order))
  {
  }

  lemma Shrinks(all: set<TypeId>, a: set<TypeId>, b: set<TypeId>)
    requires a <= b <= all
    ensures a == b || |all - b| < |all - a|
  {
    if a != b {
      assert !(b <= a);
      var t :| t in b && t !in a;
      assert all - b <= (all - a) - {t};
      SubsetSize(all - b, (all - a) - {t});
    }
  }

  lemma SubsetSize(a: set<TypeId>, b: set<TypeId>)
    requires a <= b
    ensures |a| <= |b|
  {
    assert b == a + (b - a);
  }

  // ---- What every search order satisfies

  /** Every type that a path of embedded fields leads to was scanned, and by no later
      path: at least depth, and first in index order there. */
  lemma {:induction false} LeastPath(g: Graph, root: TypeId, order: seq<Visit>, path: seq<nat>)
    requires ValidOrder(g, root, order) && Follow(g, root, path).Some?
    ensures Reached(order, Follow(g, root, path).value, path)
  {
    hide ValidOrder, NoLater;
    StartReached(g, root, order);
    if path != [] {
      var front, i := path[..|path| - 1], path[|path| - 1];
      LeastPath(g, root, order, front);
      var t := Follow(g, root, front).value;
      var v :| v in order && v.typ == t && NoLater(v.path, front);
      NoLaterSnoc(v.path, front, i);
      assert front + [i] == path;
      EmbeddedReached(g, root, order, v, i);
      ReachedLater(order, g[v.typ][i].typ, v.path + [i], path);
    }
  }

  lemma StartReached(g: Graph, root: TypeId, order: seq<Visit>)
    requires ValidOrder(g, root, order)
    ensures Reached(order, root, [])
  {
  }

  lemma EmbeddedReached(g: Graph, root: TypeId, order: seq<Visit>, v: Visit, i: nat)
    requires ValidOrder(g, root, order) && v in order && v.typ in g && i < |g[v.typ]| && Embedded(g, g[v.typ][i])
    ensures Reached(order, g[v.typ][i].typ, v.path + [i])
  {
  }

  lemma LeastDepth(g: Graph, root: TypeId, order: seq<Visit>, path: seq<nat>)
    requires ValidOrder(g, root, order) && Follow(g, root, path).Some?
    ensures exists w :: w in order && w.typ == Follow(g, root, path).value && |w.path| <= |path|
  {
    LeastPath(g, root, order, path);
  }

  /** What a scanned struct embeds is scanned, at most one level deeper. */
  lemma EmbeddedDepth(g: Graph, root: TypeId, order: seq<Visit>, v: Visit, i: nat) returns (u: Visit)
    requires ValidOrder(g, root, order) && v in order && i < |g[v.typ]| && Embedded(g, g[v.typ][i])
    ensures u in order && u.typ == g[v.typ][i].typ && |u.path| <= |v.path| + 1
  {
    assert Reached(order, g[v.typ][i].typ, v.path + [i]);
    u :| u in order && u.typ == g[v.typ][i].typ && NoLater(u.path, v.path + [i]);
  }

  // ---- There is one order

  lemma SameVisit(g: Graph, root: TypeId, order: seq<Visit>, v: Visit, w: Visit)
    requires OrderOk(g, root, order) && v in order && w in order && v.typ == w.typ
    ensures v == w
  {
  }

  lemma SamePlace(g: Graph, root: TypeId, a: seq<Visit>, b: seq<Visit>, v: Visit) returns (w: Visit)
    requires ValidOrder(g, root, a) && ValidOrder(g, root, b) && v in a
    ensures w in b && w.typ == v.typ && w.path == v.path
  {
    LeastPath(g, root, b, v.path);
    w :| w in b && w.typ == v.typ && NoLater(w.path, v.path);
    LeastPath(g, root, a, w.path);
    var u :| u in a && u.typ == w.typ && NoLater(u.path, w.path);
    SameVisit(g, root, a, u, v);
    NoLaterBoth(v.path, w.path);
  }

  lemma {:induction false} SameVisits(g: Graph, root: TypeId, a: seq<Visit>, b: seq<Visit>, v: Visit)
    requires ValidOrder(g, root, a) && ValidOrder(g, root, b) && v in a
    ensures v in b
    decreases |v.path|
  {
    var w := SamePlace(g, root, a, b, v);
    var d := |v.path| - 1;
    forall x | x in a && |x.path| == d ensures x in b {
      SameVisits(g, root, a, b, x);
    }
    forall x | x in b && |x.path| == d ensures x in a {
      SameVisits(g, root, b, a, x);
    }
    assert Parents(g, a, d, v.typ) == Parents(g, b, d, v.typ);
  }

  lemma EarlierNotBack(p: seq<nat>, q: seq<nat>)
    ensures Earlier(p, q) ==> !Earlier(q, p)
  {
    if Less(p, q) {
      LessAsymmetric(p, q);
    }
  }

  /** The type graph alone decides the order of the search, and so all it records. */
  lemma OrderUnique(g: Graph, root: TypeId, a: seq<Visit>, b: seq<Visit>)
    requires ValidOrder(g, root, a) && ValidOrder(g, root, b)
    ensures a == b
  {
    forall v ensures v in a <==> v in b {
      if v in a {
        SameVisits(g, root, a, b, v);
      }
      if v in b {
        SameVisits(g, root, b, a, v);
      }
    }
    var before := (x: Visit, y: Visit) => Earlier(x.path, y.path);
    forall x, y ensures before(x, y) ==> !before(y, x) {
      EarlierNotBack(x.path, y.path);
    }
    assert Strict(before, a) && Strict(before, b);
    StrictUnique(before, a, b);
  }

  lemma FoundUnique(g: Graph, root: TypeId, a: seq<Field>, b: seq<Field>)
    requires Found(g, root, a) && Found(g, root, b)
    ensures a == b
  {
    var x :| ValidOrder(g, root, x) && a == AllRecords(g, x);
    var y :| ValidOrder(g, root, y) && b == AllRecords(g, y);
    OrderUnique(g, root, x, y);
  }
}
