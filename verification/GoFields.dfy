/** The members that typeFields selects, beside those the Go language selects: the rule for
    embedded fields over all embedding paths, whatever the search does. */
module GoFields {
  import opened ByteCodec
  import opened Results
  import opened TypeGraph
  import opened FieldPaths
  import opened TypeFields

  // ---- The rule of the language

  /** f is field i of the struct that path p of embedded fields leads to. */
  ghost predicate OccursAt(g: Graph, root: TypeId, f: Field, p: seq<nat>, i: nat) {
    && Follow(g, root, p).Some? && Follow(g, root, p).value in g
    && var t := Follow(g, root, p).value;
       i < |g[t]| && Recorded(g, g[t][i]) && f == MakeField(g[t][i], p + [i])
  }

  ghost predicate Occurs(g: Graph, root: TypeId, f: Field) {
    exists p, i: nat :: OccursAt(g, root, f, p, i)
  }

  /** f can be named: every other field of its name, on any path, is deeper, or as deep and
      untagged while f is tagged. */
  ghost predicate Selects(g: Graph, root: TypeId, f: Field) {
    && Occurs(g, root, f)
    && forall h | Occurs(g, root, h) && h != f && h.name == f.name :: Outranks(f, h)
  }

  // ---- The type graph, by least depth

  ghost predicate AtLeast(g: Graph, root: TypeId, t: TypeId, d: nat) {
    && (exists p :: |p| == d && Follow(g, root, p) == Some(t))
    && forall p | Follow(g, root, p) == Some(t) :: d <= |p|
  }

  /** x is one level above least depth d and embeds t with its field i. */
  ghost predicate EmbedsAt(g: Graph, root: TypeId, x: TypeId, i: nat, t: TypeId, d: nat) {
    && d > 0 && AtLeast(g, root, x, d - 1) && x in g && i < |g[x]| && Embedded(g, g[x][i]) && g[x][i].typ == t
  }

  /** Two or more fields one level up embed t. */
  ghost predicate Doubly(g: Graph, root: TypeId, t: TypeId, d: nat) {
    exists x, i: nat, y, j: nat :: (x, i) != (y, j) && EmbedsAt(g, root, x, i, t, d) && EmbedsAt(g, root, y, j, t, d)
  }

  /** Field i of struct t, which is at least depth d. */
  ghost predicate HasField(g: Graph, root: TypeId, t: TypeId, i: nat, d: nat) {
    t in g && i < |g[t]| && Recorded(g, g[t][i]) && AtLeast(g, root, t, d)
  }

  function NameOf(d: FieldDecl): Bytes {
    MakeField(d, []).name
  }

  /** Field i of t is shallower than field j of u, or as shallow and alone tagged. */
  predicate Ahead(g: Graph, t: TypeId, i: nat, d: nat, u: TypeId, j: nat, e: nat)
    requires t in g && i < |g[t]| && u in g && j < |g[u]|
  {
    e > d || (e == d && g[t][i].tagName != [] && g[u][j].tagName == [])
  }

  /** Field i of t is ahead of every other field of its name. */
  ghost predicate Leads(g: Graph, root: TypeId, t: TypeId, i: nat, d: nat)
    requires t in g && i < |g[t]|
  {
    forall u, j: nat, e: nat | HasField(g, root, u, j, e) && (u, j) != (t, i) && NameOf(g[u][j]) == NameOf(g[t][i]) ::
      Ahead(g, t, i, d, u, j, e)
  }

  /** Struct t is reached by two shortest paths, is embedded by one field only one level up,
      and has a field that is ahead of every other of its name. */
  ghost predicate SpuriousAt(g: Graph, root: TypeId, t: TypeId, i: nat, d: nat) {
    HasField(g, root, t, i, d) && Ambiguous(g, root, t, d) && !Doubly(g, root, t, d) && Leads(g, root, t, i, d)
  }

  ghost predicate Spurious(g: Graph, root: TypeId) {
    exists t, i: nat, d: nat :: SpuriousAt(g, root, t, i, d)
  }

  // ---- The search in terms of the graph

  lemma OrderFacts(g: Graph, root: TypeId, order: seq<Visit>)
    requires ValidOrder(g, root, order)
    ensures Scannable(g, order)
  {
  }

  /** A visit is at the least depth of its type. */
  lemma VisitLeast(g: Graph, root: TypeId, order: seq<Visit>, v: Visit)
    requires ValidOrder(g, root, order) && v in order
    ensures AtLeast(g, root, v.typ, |v.path|)
  {
    assert Follow(g, root, v.path) == Some(v.typ);
    forall p | Follow(g, root, p) == Some(v.typ) ensures |v.path| <= |p| {
      LeastDepth(g, root, order, p);
      var w :| w in order && w.typ == v.typ && |w.path| <= |p|;
      SameVisit(g, root, order, v, w);
    }
  }

  lemma LeastVisit(g: Graph, root: TypeId, order: seq<Visit>, t: TypeId, d: nat) returns (v: Visit)
    requires ValidOrder(g, root, order) && AtLeast(g, root, t, d)
    ensures v in order && v.typ == t && |v.path| == d && t in g && Follow(g, root, v.path) == Some(t)
  {
    var p :| |p| == d && Follow(g, root, p) == Some(t);
    LeastDepth(g, root, order, p);
    v :| v in order && v.typ == t && |v.path| <= |p|;
    assert Follow(g, root, v.path) == Some(t);
  }

  lemma ParentEmbeds(g: Graph, root: TypeId, order: seq<Visit>, v: Visit, w: Visit, i: nat)
    requires ValidOrder(g, root, order) && v in order && (w, i) in Parents(g, order, |v.path| - 1, v.typ)
    ensures EmbedsAt(g, root, w.typ, i, v.typ, |v.path|) && w in order
  {
    EdgeOf(g, order, w, i, |v.path| - 1, v.typ);
    VisitLeast(g, root, order, w);
  }

  lemma EmbedderVisited(g: Graph, root: TypeId, order: seq<Visit>, v: Visit, x: TypeId, i: nat) returns (w: Visit)
    requires ValidOrder(g, root, order) && v in order && EmbedsAt(g, root, x, i, v.typ, |v.path|)
    ensures w.typ == x && (w, i) in Parents(g, order, |v.path| - 1, v.typ)
  {
    w := LeastVisit(g, root, order, x, |v.path| - 1);
    assert i in Indices(g, w, v.typ);
  }

  /** A struct is marked exactly if two or more fields one level up embed it. */
  lemma TwiceIsDoubly(g: Graph, root: TypeId, order: seq<Visit>, v: Visit)
    requires ValidOrder(g, root, order) && v in order
    ensures v.twice <==> Doubly(g, root, v.typ, |v.path|)
  {
    hide ValidOrder, Parents, EmbedsAt;
    var d, t := |v.path|, v.typ;
    TwiceCounts(g, root, order, v);
    var ps := Parents(g, order, d - 1, t);
    if v.twice {
      TwoElements(ps);
      var a, b :| a in ps && b in ps && a != b;
      ParentEmbeds(g, root, order, v, a.0, a.1);
      ParentEmbeds(g, root, order, v, b.0, b.1);
      if a.0.typ == b.0.typ {
        SamePath(g, root, order, a.0, b.0);
      }
      assert (a.0.typ, a.1) != (b.0.typ, b.1);
    }
    if Doubly(g, root, t, d) {
      var x, i: nat, y, j: nat :| (x, i) != (y, j) && EmbedsAt(g, root, x, i, t, d) && EmbedsAt(g, root, y, j, t, d);
      var a := EmbedderVisited(g, root, order, v, x, i);
      var b := EmbedderVisited(g, root, order, v, y, j);
      Pair(ps, (a, i), (b, j));
    }
  }

  /** Being embedded twice means ambiguity, and the other way around. */
  ghost predicate MarksRight(g: Graph, root: TypeId) {
    forall t, d: nat | AtLeast(g, root, t, d) :: Doubly(g, root, t, d) <==> Ambiguous(g, root, t, d)
  }

  /** A struct embedded twice embeds nothing, at its least depth, that is embedded once. */
  ghost predicate PassesOn(g: Graph, root: TypeId) {
    forall x, i: nat, y, d: nat | EmbedsAt(g, root, x, i, y, d) && AtLeast(g, root, y, d) && Doubly(g, root, x, d - 1) ::
      Doubly(g, root, y, d)
  }

  lemma MarksAreFlags(g: Graph, root: TypeId, order: seq<Visit>)
    requires ValidOrder(g, root, order)
    ensures MarksRight(g, root) <==> FlagsAmbiguity(g, root, order)
  {
    hide ValidOrder, AtLeast, Doubly, Ambiguous;
    if MarksRight(g, root) {
      forall v | v in order ensures v.twice <==> Ambiguous(g, root, v.typ, |v.path|) {
        VisitLeast(g, root, order, v);
        TwiceIsDoubly(g, root, order, v);
      }
    }
    if FlagsAmbiguity(g, root, order) {
      forall t, d: nat | AtLeast(g, root, t, d) ensures Doubly(g, root, t, d) <==> Ambiguous(g, root, t, d) {
        var v := LeastVisit(g, root, order, t, d);
        TwiceIsDoubly(g, root, order, v);
      }
    }
  }

  lemma PassesOnVisits(g: Graph, root: TypeId, order: seq<Visit>)
    requires ValidOrder(g, root, order)
    ensures Scannable(g, order) && (PassesOn(g, root) <==> PassedOn(g, order))
  {
    hide ValidOrder, AtLeast, Doubly;
    OrderFacts(g, root, order);
    if PassesOn(g, root) {
      forall v, w, i | v in order && w in order && i in Indices(g, v, w.typ) && |w.path| == |v.path| + 1 && v.twice
        ensures w.twice
      {
        VisitLeast(g, root, order, v);
        VisitLeast(g, root, order, w);
        TwiceIsDoubly(g, root, order, v);
        TwiceIsDoubly(g, root, order, w);
        assert EmbedsAt(g, root, v.typ, i, w.typ, |w.path|);
      }
    }
    if PassedOn(g, order) {
      forall x, i: nat, y, d: nat | EmbedsAt(g, root, x, i, y, d) && AtLeast(g, root, y, d) && Doubly(g, root, x, d - 1)
        ensures Doubly(g, root, y, d)
      {
        var v := LeastVisit(g, root, order, x, d - 1);
        var w := LeastVisit(g, root, order, y, d);
        TwiceIsDoubly(g, root, order, v);
        TwiceIsDoubly(g, root, order, w);
        assert i in Indices(g, v, w.typ);
      }
    }
  }

  /** On the type graph alone: the mark, two embedding fields one level up, is Go's
      ambiguity, two shortest paths, exactly if marked structs pass it on. */
  lemma MarksExactly(g: Graph, root: TypeId, order: seq<Visit>)
    requires ValidOrder(g, root, order)
    ensures MarksRight(g, root) <==> PassesOn(g, root)
  {
    MarksAreFlags(g, root, order);
    PassesOnVisits(g, root, order);
    FlagsExactly(g, root, order);
    hide *;
  }

  // ---- Members and fields of the language

  lemma VisitOccurs(g: Graph, root: TypeId, order: seq<Visit>, f: Field, v: Visit, i: nat)
    requires ValidOrder(g, root, order) && Candidate(g, order, f, v, i)
    ensures OccursAt(g, root, f, v.path, i) && Occurs(g, root, f)
  {
  }

  /** The same field on another path is a field of its own. */
  lemma Elsewhere(g: Graph, root: TypeId, f: Field, p: seq<nat>, i: nat, q: seq<nat>) returns (h: Field)
    requires OccursAt(g, root, f, p, i) && Follow(g, root, q) == Follow(g, root, p) && q != p
    ensures Occurs(g, root, h) && h != f && h.name == f.name && h.tagged == f.tagged && |h.index| == |q| + 1
    ensures |f.index| == |p| + 1
  {
    h := MakeField(g[Follow(g, root, p).value][i], q + [i]);
    assert OccursAt(g, root, h, q, i);
    if h.index == f.index {
      SameFront(p, i, q, i);
    }
  }

  /** What the language selects is a member. */
  lemma SelectedIsMember(g: Graph, root: TypeId, order: seq<Visit>, list: seq<Field>, f: Field)
    requires ValidOrder(g, root, order) && Members(AllRecords(g, order), list) && Selects(g, root, f)
    ensures f in list
  {
    hide ValidOrder, Members, AllRecords, OccursAt;
    OrderFacts(g, root, order);
    var p, i: nat :| OccursAt(g, root, f, p, i);
    var v := SelectedVisit(g, root, order, f, p, i);
    NotTwice(g, root, order, f, v, i);
    forall h | IsCandidate(g, order, h) && h != f && h.name == f.name ensures Outranks(f, h) {
      var w, j: nat :| Candidate(g, order, h, w, j);
      VisitOccurs(g, root, order, h, w, j);
    }
    MemberExactly(g, root, order, list, f);
  }

  lemma SelectedOutranks(g: Graph, root: TypeId, f: Field, h: Field)
    requires Selects(g, root, f) && Occurs(g, root, h) && h != f && h.name == f.name
    ensures Outranks(f, h)
  {
  }

  lemma SelectedVisit(g: Graph, root: TypeId, order: seq<Visit>, f: Field, p: seq<nat>, i: nat) returns (v: Visit)
    requires ValidOrder(g, root, order) && Selects(g, root, f) && OccursAt(g, root, f, p, i)
    ensures Candidate(g, order, f, v, i) && v.path == p
  {
    LeastPath(g, root, order, p);
    v :| v in order && v.typ == Follow(g, root, p).value && NoLater(v.path, p);
    assert Follow(g, root, v.path) == Some(v.typ);
    if v.path != p {
      var h := Elsewhere(g, root, f, p, i, v.path);
      SelectedOutranks(g, root, f, h);
    }
  }

  lemma NotTwice(g: Graph, root: TypeId, order: seq<Visit>, f: Field, v: Visit, i: nat)
    requires ValidOrder(g, root, order) && Selects(g, root, f) && Candidate(g, order, f, v, i)
    ensures !v.twice && !Ambiguous(g, root, v.typ, |v.path|)
  {
    VisitOccurs(g, root, order, f, v, i);
    if Ambiguous(g, root, v.typ, |v.path|) {
      var q := OtherPath(g, root, v);
      var h := Elsewhere(g, root, f, v.path, i, q);
      SelectedOutranks(g, root, f, h);
    }
    if v.twice {
      TwiceCounts(g, root, order, v);
      TwiceIsAmbiguous(g, root, order, v);
    }
  }

  lemma OtherPath(g: Graph, root: TypeId, v: Visit) returns (q: seq<nat>)
    requires Ambiguous(g, root, v.typ, |v.path|)
    ensures q != v.path && |q| == |v.path| && Follow(g, root, q) == Some(v.typ)
  {
    var a, b := AmbiguousPaths(g, root, v.typ, |v.path|);
    q := if a == v.path then b else a;
  }

  /** A member is selected by the language unless its struct is reached by two shortest
      paths. */
  lemma MemberSelected(g: Graph, root: TypeId, order: seq<Visit>, list: seq<Field>, f: Field, v: Visit, i: nat)
    requires ValidOrder(g, root, order) && Members(AllRecords(g, order), list)
    requires f in list && Candidate(g, order, f, v, i)
    ensures Selects(g, root, f) <==> !Ambiguous(g, root, v.typ, |v.path|)
  {
    VisitOccurs(g, root, order, f, v, i);
    if Selects(g, root, f) {
      NotTwice(g, root, order, f, v, i);
    } else {
      var h :| Occurs(g, root, h) && h != f && h.name == f.name && !Outranks(f, h);
      OutrankedOnce(g, root, order, list, f, v, i, h);
    }
  }

  /** A field that a member does not outrank is the member itself on another shortest
      path. */
  lemma OutrankedOnce(g: Graph, root: TypeId, order: seq<Visit>, list: seq<Field>, f: Field, v: Visit, i: nat, h: Field)
    requires ValidOrder(g, root, order) && Members(AllRecords(g, order), list)
    requires f in list && Candidate(g, order, f, v, i)
    requires Occurs(g, root, h) && h != f && h.name == f.name && !Outranks(f, h)
    ensures Ambiguous(g, root, v.typ, |v.path|)
  {
    hide Members, AllRecords;
    var q, j: nat :| OccursAt(g, root, h, q, j);
    assert Follow(g, root, q).Some?;
    LeastPath(g, root, order, q);
    var w :| w in order && w.typ == Follow(g, root, q).value && NoLater(w.path, q);
    var c := MakeField(g[w.typ][j], w.path + [j]);
    assert Candidate(g, order, c, w, j);
    MemberExactly(g, root, order, list, f);
    assert IsCandidate(g, order, c) && c.name == f.name && c.tagged == h.tagged && |c.index| <= |h.index|;
    assert c != f ==> Outranks(f, c);
    if c == f {
      SameFront(v.path, i, w.path, j);
      assert v.path == w.path && Follow(g, root, v.path) == Some(v.typ);
      PathsAmbiguous(g, root, v.typ, |v.path|, v.path, q);
    }
  }

  // ---- Exactly when the two agree

  /** The member that the field of a struct becomes. */
  lemma LeadsIsMember(g: Graph, root: TypeId, order: seq<Visit>, list: seq<Field>, v: Visit, i: nat, f: Field)
    requires ValidOrder(g, root, order) && Members(AllRecords(g, order), list) && Candidate(g, order, f, v, i)
    ensures f in list <==> !Doubly(g, root, v.typ, |v.path|) && Leads(g, root, v.typ, i, |v.path|)
  {
    hide Members, AllRecords, ValidOrder, Doubly;
    OrderFacts(g, root, order);
    TwiceIsDoubly(g, root, order, v);
    MemberExactly(g, root, order, list, f);
    OneCandidate(g, root, order, f, v, i);
    if f in list {
      OutranksLeads(g, root, order, f, v, i);
    }
    if Leads(g, root, v.typ, i, |v.path|) {
      LeadsOutranks(g, root, order, f, v, i);
    }
  }

  lemma OneCandidate(g: Graph, root: TypeId, order: seq<Visit>, f: Field, v: Visit, i: nat)
    requires ValidOrder(g, root, order) && Candidate(g, order, f, v, i)
    ensures forall w, j | Candidate(g, order, f, w, j) :: w == v && j == i
  {
    forall w, j | Candidate(g, order, f, w, j) ensures w == v && j == i {
      SameFront(v.path, i, w.path, j);
      SamePath(g, root, order, v, w);
    }
  }

  lemma OutranksLeads(g: Graph, root: TypeId, order: seq<Visit>, f: Field, v: Visit, i: nat)
    requires ValidOrder(g, root, order) && Candidate(g, order, f, v, i)
    requires forall h | IsCandidate(g, order, h) && h != f && h.name == f.name :: Outranks(f, h)
    ensures Leads(g, root, v.typ, i, |v.path|)
  {
    forall u, j: nat, e: nat | HasField(g, root, u, j, e) && (u, j) != (v.typ, i) && NameOf(g[u][j]) == NameOf(g[v.typ][i])
      ensures Ahead(g, v.typ, i, |v.path|, u, j, e)
    {
      var w := LeastVisit(g, root, order, u, e);
      var h := MakeField(g[u][j], w.path + [j]);
      assert Candidate(g, order, h, w, j);
      if h == f {
        OneCandidate(g, root, order, f, v, i);
      }
      assert IsCandidate(g, order, h) && Outranks(f, h);
    }
  }

  lemma LeadsOutranks(g: Graph, root: TypeId, order: seq<Visit>, f: Field, v: Visit, i: nat)
    requires ValidOrder(g, root, order) && Candidate(g, order, f, v, i) && Leads(g, root, v.typ, i, |v.path|)
    ensures forall h | IsCandidate(g, order, h) && h != f && h.name == f.name :: Outranks(f, h)
  {
    forall h | IsCandidate(g, order, h) && h != f && h.name == f.name ensures Outranks(f, h) {
      var w, j: nat :| Candidate(g, order, h, w, j);
      VisitLeast(g, root, order, w);
      assert HasField(g, root, w.typ, j, |w.path|);
      if (w.typ, j) == (v.typ, i) {
        SamePath(g, root, order, v, w);
      }
      assert Ahead(g, v.typ, i, |v.path|, w.typ, j, |w.path|);
    }
  }

  /** Every member is a field of some visit. */
  lemma MemberVisit(g: Graph, root: TypeId, order: seq<Visit>, list: seq<Field>, f: Field) returns (v: Visit, i: nat)
    requires ValidOrder(g, root, order) && Members(AllRecords(g, order), list) && f in list
    ensures Candidate(g, order, f, v, i)
  {
    MemberExactly(g, root, order, list, f);
    v, i :| Candidate(g, order, f, v, i);
  }

  lemma SpuriousMember(g: Graph, root: TypeId, order: seq<Visit>, list: seq<Field>) returns (f: Field)
    requires ValidOrder(g, root, order) && Members(AllRecords(g, order), list) && Spurious(g, root)
    ensures f in list && !Selects(g, root, f)
  {
    hide Members, AllRecords, ValidOrder, Doubly, Leads, Ambiguous, AtLeast;
    var t, i: nat, d: nat :| SpuriousAt(g, root, t, i, d);
    var v := LeastVisit(g, root, order, t, d);
    f := MakeField(g[t][i], v.path + [i]);
    CandidateBy(g, root, order, v, i);
    LeadsIsMember(g, root, order, list, v, i, f);
    MemberSelected(g, root, order, list, f, v, i);
  }

  lemma CandidateBy(g: Graph, root: TypeId, order: seq<Visit>, v: Visit, i: nat)
    requires ValidOrder(g, root, order) && v in order && v.typ in g && i < |g[v.typ]| && Recorded(g, g[v.typ][i])
    ensures Scannable(g, order) && Candidate(g, order, MakeField(g[v.typ][i], v.path + [i]), v, i)
  {
  }

  lemma UnselectedMember(g: Graph, root: TypeId, order: seq<Visit>, list: seq<Field>, f: Field)
    requires ValidOrder(g, root, order) && Members(AllRecords(g, order), list) && f in list && !Selects(g, root, f)
    ensures Spurious(g, root)
  {
    hide Members, AllRecords, ValidOrder, Doubly, Leads, Ambiguous, Selects, AtLeast;
    OrderFacts(g, root, order);
    var v, i := MemberVisit(g, root, order, list, f);
    MemberSelected(g, root, order, list, f, v, i);
    LeadsIsMember(g, root, order, list, v, i, f);
    VisitLeast(g, root, order, v);
    assert SpuriousAt(g, root, v.typ, i, |v.path|);
  }

  /** For every type graph: typeFields selects what the language selects, exactly if no
      struct with two shortest paths but one embedding field one level up has a field ahead
      of every other of its name. What the language selects is always a member. */
  lemma MembersExactly(g: Graph, root: TypeId, list: seq<Field>)
    requires MembersOf(g, root, list)
    ensures forall f | Selects(g, root, f) :: f in list
    ensures (forall f :: f in list <==> Selects(g, root, f)) <==> !Spurious(g, root)
  {
    hide Members, AllRecords, ValidOrder, Selects, Spurious;
    var order := OrderOf(g, root, list);
    forall f | Selects(g, root, f) ensures f in list {
      SelectedIsMember(g, root, order, list, f);
    }
    if Spurious(g, root) {
      var f := SpuriousMember(g, root, order, list);
    } else {
      forall f | f in list ensures Selects(g, root, f) {
        if !Selects(g, root, f) {
          UnselectedMember(g, root, order, list, f);
        }
      }
    }
  }

  lemma OrderOf(g: Graph, root: TypeId, list: seq<Field>) returns (order: seq<Visit>)
    requires MembersOf(g, root, list)
    ensures ValidOrder(g, root, order) && Members(AllRecords(g, order), list)
  {
    var fields :| Found(g, root, fields) && Members(fields, list);
    order :| ValidOrder(g, root, order) && fields == AllRecords(g, order);
  }

  // ---- It does happen

  lemma DiamondLeast()
    ensures AtLeast(Diamond(), 0, 4, 3)
  {
    DiamondPaths();
    forall p | Follow(Diamond(), 0, p) == Some(4) ensures 3 <= |p| {
      DiamondDepth(p);
    }
    hide Follow;
    assert Follow(Diamond(), 0, [0, 0, 0]) == Some(4) && |[0, 0, 0]| == 3;
  }

  lemma OnlyEmbedder(x: TypeId, i: nat)
    requires x in Diamond() && i < |Diamond()[x]| && Embedded(Diamond(), Diamond()[x][i]) && Diamond()[x][i].typ == 4
    ensures x == 3 && i == 0
  {
  }

  lemma DiamondNotDoubly()
    ensures !Doubly(Diamond(), 0, 4, 3)
  {
    hide AtLeast, Embedded, Diamond;
    forall x, i: nat | EmbedsAt(Diamond(), 0, x, i, 4, 3) ensures x == 3 && i == 0 {
      OnlyEmbedder(x, i);
    }
  }

  /** Struct 4 of the diamond is reached by two shortest paths; X is a member all the same,
      and the language does not select it. */
  lemma DiamondSpurious(list: seq<Field>) returns (f: Field)
    requires MembersOf(Diamond(), 0, list)
    ensures Spurious(Diamond(), 0)
    ensures AtLeast(Diamond(), 0, 4, 3) && Ambiguous(Diamond(), 0, 4, 3) && !Doubly(Diamond(), 0, 4, 3)
    ensures Follow(Diamond(), 0, [0, 0, 0]) == Some(4) == Follow(Diamond(), 0, [1, 0, 0])
    ensures f in list && f.name == [0x58] && f.typ == 5 && !Selects(Diamond(), 0, f)
  {
    DiamondPaths();
    DiamondLeast();
    DiamondNotDoubly();
    DiamondField();
    hide Follow, Doubly, AtLeast;
    PathsAmbiguous(Diamond(), 0, 4, 3, [0, 0, 0], [1, 0, 0]);
    assert SpuriousAt(Diamond(), 0, 4, 0, 3);
    var order := OrderOf(Diamond(), 0, list);
    f := SpuriousMember(Diamond(), 0, order, list);
    var v, i := MemberVisit(Diamond(), 0, order, list, f);
    OnlyPlain(v.typ, i);
  }

  lemma OnlyPlain(t: TypeId, i: nat)
    requires t in Diamond() && i < |Diamond()[t]| && Recorded(Diamond(), Diamond()[t][i])
    ensures t == 4 && i == 0 && Diamond()[t][i] == PLAIN
  {
  }

  lemma DiamondField()
    ensures 4 in Diamond() && Diamond()[4] == [PLAIN] && Recorded(Diamond(), PLAIN)
    ensures Leads(Diamond(), 0, 4, 0, 3)
  {
    hide Follow;
    forall u, j: nat, e: nat | HasField(Diamond(), 0, u, j, e) ensures (u, j) == (4, 0) {
      OnlyPlain(u, j);
    }
  }
}
