/** The linked DOM of dom.cpp: adding elements, walking through them, and searching by tag. */
module Dom {
  import opened Wrappers

  class Element {
    var elts: Element?
    var next: Element?
    var prnt: Element?
    const nstr: Option<string>
    const name: Option<string>
    const kind: int

    constructor (nstr: Option<string>, name: Option<string>, kind: int)
      ensures this.nstr == nstr && this.name == name && this.kind == kind
      ensures elts == null && next == null && prnt == null
    {
      this.nstr, this.name, this.kind := nstr, name, kind;
      elts, next, prnt := null, null, null;
    }

    /** Adds an element, with all `below` it, behind the last child of this one, which stands
        somewhere in the forest `f`. */
    method Add(elt: Element, ghost f: Forest, ghost below: Forest)
      requires this in Elements(f) && Linked(f, f.e, f.e.prnt) && Distinct(f)
      requires elt.next == null && Linked(below, elt.elts, elt) && Distinct(Cons(elt, below, Nil))
      requires Elements(f) !! Elements(Cons(elt, below, Nil))
      modifies this`elts, elt`prnt, Elements(f)`next
      ensures f.e.prnt == old(f.e.prnt) && Linked(Graft(f, this, Cons(elt, below, Nil)), f.e, f.e.prnt)
      ensures Distinct(Graft(f, this, Cons(elt, below, Nil)))
    {
      ghost var g := Cons(elt, below, Nil);
      ghost var kids := KidsOf(f, this);
      KidsAreLinked(f, f.e, f.e.prnt, this);
      GraftDistinct(f, this, g);
      elt.prnt := this;
      var e := elts;
      ghost var left := kids;
      while e != null
        invariant Linked(left, e, this) && Elements(left) <= Elements(kids)
        invariant kids.Cons? ==> left.Cons? && Last(left) == Last(kids)
        decreases left
      {
        if e.next == null {
          break;
        }
        e := e.next;
        left := left.rest;
      }
      if e != null {
        e.next := elt;
        AppendLinks(kids, g);
      } else {
        elts := elt;
      }
      GraftLinks(f, this, g);
    }
  }

  // --------------------------------------------------------------------------- the structure

  /** An element, what is below it, and its later siblings. */
  datatype Forest = Nil | Cons(e: Element, kids: Forest, rest: Forest)

  ghost function Elements(f: Forest): set<Element> {
    match f
    case Nil => {}
    case Cons(e, kids, rest) => {e} + Elements(kids) + Elements(rest)
  }

  function Preorder(f: Forest): seq<Element> {
    match f
    case Nil => []
    case Cons(e, kids, rest) => [e] + Preorder(kids) + Preorder(rest)
  }

  /** The pointers of the elements spell out the forest. */
  ghost predicate Linked(f: Forest, first: Element?, parent: Element?)
    reads Elements(f)
  {
    match f
    case Nil => first == null
    case Cons(e, kids, rest) =>
      first == e && e.prnt == parent && Linked(kids, e.elts, e) && Linked(rest, e.next, parent)
  }

  ghost predicate Distinct(f: Forest) {
    match f
    case Nil => true
    case Cons(e, kids, rest) =>
      && e !in Elements(kids) && e !in Elements(rest) && Elements(kids) !! Elements(rest)
      && Distinct(kids) && Distinct(rest)
  }

  /** What is above: the parent at each level, with its later siblings. */
  datatype Context = Top | Below(e: Element, rest: Forest, up: Context)

  ghost function Above(c: Context): set<Element> {
    match c
    case Top => {}
    case Below(e, rest, up) => {e} + Elements(rest) + Above(up)
  }

  ghost predicate LinkedUp(c: Context, parent: Element?)
    reads Above(c)
  {
    match c
    case Top => parent == null
    case Below(e, rest, up) => parent == e && Linked(rest, e.next, e.prnt) && LinkedUp(up, e.prnt)
  }

  function After(c: Context): seq<Element> {
    match c
    case Top => []
    case Below(_, rest, up) => Preorder(rest) + After(up)
  }

  /** A place in the document: a forest and what is above it. */
  datatype Place = Place(f: Forest, c: Context) {
    ghost predicate At(elt: Element?)
      reads Elements(f), Above(c)
    {
      match f
      case Nil => elt == null && c.Top?
      case Cons(e, _, _) => Linked(f, elt, e.prnt) && LinkedUp(c, e.prnt)
    }

    /** What is still to come, this place included. */
    function Coming(): seq<Element> {
      Preorder(f) + After(c)
    }
  }

  // ----------------------------------------------------------------------------------- walking

  method NextElement(elt: Element, ghost p: Place) returns (r: Element?, ghost q: Place)
    requires p.At(elt)
    ensures q.At(r)
    ensures p.Coming() == [elt] + q.Coming()
    ensures r == if |p.Coming()| > 1 then p.Coming()[1] else null
    ensures r == null <==> q.Coming() == []
  {
    ghost var f := p.f;
    assert Linked(f.kids, elt.elts, elt) && Linked(f.rest, elt.next, elt.prnt) && LinkedUp(p.c, elt.prnt);
    assert elt.elts == null ==> f.kids.Nil?;
    assert elt.next == null ==> f.rest.Nil?;
    if elt.elts != null {
      q := Place(f.kids, Below(elt, f.rest, p.c));
      return elt.elts, q;
    }
    if elt.next != null {
      assert Preorder(f) == [elt] + Preorder(f.rest);
      q := Place(f.rest, p.c);
      return elt.next, q;
    }
    r := elt.prnt;
    ghost var c := p.c;
    while r != null && r.next == null
      invariant LinkedUp(c, r) && After(c) == After(p.c)
      decreases c
    {
      r := r.prnt;
      c := c.up;
    }
    if r != null {
      q := Place(c.rest, c.up);
      r := r.next;
    } else {
      q := Place(Nil, Top);
    }
  }

  /** A walk from the root of a document to its end. */
  method Walk(root: Element, ghost kids: Forest) returns (seen: seq<Element>)
    requires Linked(kids, root.elts, root) && root.next == null && root.prnt == null
    ensures seen == Preorder(Cons(root, kids, Nil))
  {
    seen := WalkFrom(root, Place(Cons(root, kids, Nil), Top));
  }

  method WalkFrom(elt: Element?, ghost place: Place) returns (seen: seq<Element>)
    requires place.At(elt)
    ensures seen == place.Coming()
    decreases |place.Coming()|
  {
    if elt == null {
      return [];
    }
    var next, rest := NextElement(elt, place);
    seen := WalkFrom(next, rest);
    seen := [elt] + seen;
  }

  lemma {:induction false} PreorderIsComplete(f: Forest)
    ensures forall e :: e in Preorder(f) <==> e in Elements(f)
    ensures forall i :: 0 <= i < |Preorder(f)| ==> Preorder(f)[i] in Elements(f)
  {
    if f.Cons? {
      PreorderIsComplete(f.kids);
      PreorderIsComplete(f.rest);
    }
  }

  /** The order follows the pointers: an element is followed by its first child, one without
      children by its next sibling. */
  lemma {:induction false} PreorderFollows(f: Forest, first: Element?, parent: Element?, i: nat)
    requires Linked(f, first, parent) && i < |Preorder(f)|
    ensures i == 0 ==> Preorder(f)[i] == first
    ensures
      var e := Preorder(f)[i];
      && (e.elts != null ==> i + 1 < |Preorder(f)| && Preorder(f)[i + 1] == e.elts)
      && (e.elts == null && e.next != null ==> i + 1 < |Preorder(f)| && Preorder(f)[i + 1] == e.next)
  {
    var kids, rest := Preorder(f.kids), Preorder(f.rest);
    if i == 0 {
      FirstOf(f.kids, f.e.elts, f.e);
      FirstOf(f.rest, f.e.next, parent);
    } else if i <= |kids| {
      PreorderFollows(f.kids, f.e.elts, f.e, i - 1);
    } else {
      PreorderFollows(f.rest, f.e.next, parent, i - 1 - |kids|);
    }
  }

  lemma FirstOf(f: Forest, first: Element?, parent: Element?)
    requires Linked(f, first, parent)
    ensures first == null ==> Preorder(f) == []
    ensures first != null ==> Preorder(f) != [] && Preorder(f)[0] == first
  {
  }

  /** Every element once. */
  lemma {:induction false} PreorderIsDistinct(f: Forest)
    requires Distinct(f)
    ensures forall i, j :: 0 <= i < j < |Preorder(f)| ==> Preorder(f)[i] != Preorder(f)[j]
  {
    if f.Cons? {
      PreorderIsDistinct(f.kids);
      PreorderIsDistinct(f.rest);
      PreorderIsComplete(f.kids);
      PreorderIsComplete(f.rest);
      var front, s := [f.e] + Preorder(f.kids), Preorder(f.rest);
      forall i, j | 0 <= i < |front| && 0 <= j < |s| ensures front[i] != s[j] {
        assert i > 0 ==> front[i] == Preorder(f.kids)[i - 1];
      }
      forall i, j | 0 <= i < j < |front + s| ensures (front + s)[i] != (front + s)[j] {
        assert i < |front| ==> (front + s)[i] == front[i];
        assert j >= |front| ==> (front + s)[j] == s[j - |front|];
        assert i >= |front| ==> (front + s)[i] == s[i - |front|];
      }
    }
  }

  // --------------------------------------------------------------------------------- searching

  /** What an iterator looks for: a tag, with `same` for the comparison of tags, or a type. */
  datatype Query =
    | ByTag(same: (string, string) -> bool, nstr: Option<string>, name: Option<string>)
    | ByType(kind: int)
  {
    function SameIn(wanted: Option<string>, given: Option<string>): bool
      requires ByTag?
    {
      wanted.Some? && given.Some? ==> same(given.value, wanted.value)
    }

    /** The test with which the iterator moves on. */
    function Matches(e: Element): bool {
      match this
      case ByTag(_, nstr, name) => name.Some? && e.name.Some? ==> SameIn(name, e.name) && SameIn(nstr, e.nstr)
      case ByType(kind) => kind != 0 ==> e.kind == kind
    }

    /** The test with which a search begins. */
    function Begins(e: Element): bool {
      match this
      case ByTag(_, nstr, name) => SameIn(name, e.name) && SameIn(nstr, e.nstr)
      case ByType(kind) => e.kind == kind
    }

    /** What the first test asks of the element: a name, if there is one to be compared. */
    predicate CanBegin(e: Element) {
      ByTag? && name.Some? ==> e.name.Some?
    }

    function Filter(s: seq<Element>): seq<Element> {
      if s == [] then [] else (if Matches(s[0]) then [s[0]] else []) + Filter(s[1..])
    }
  }

  class ElementIterator {
    var elt: Element?
    const query: Query
    ghost var place: Place

    constructor (elt: Element, query: Query, ghost place: Place)
      requires place.At(elt)
      ensures this.elt == elt && this.query == query && this.place == place && this.place.At(elt)
    {
      this.elt, this.query, this.place := elt, query, place;
      new;
      assert forall o: object :: o in Elements(place.f) || o in Above(place.c) ==> o is Element;
    }

    /** This element and all that will be found after it. */
    ghost function Found(): seq<Element>
      reads this
    {
      if elt == null || place.Coming() == [] then [] else [elt] + query.Filter(place.Coming()[1..])
    }

    method Advance()
      requires elt != null && place.At(elt)
      modifies this
      ensures place.At(elt) && old(place.Coming()) == [old(elt)] + place.Coming()
    {
      elt, place := NextElement(elt, place);
      assert forall o: object :: o in Elements(place.f) || o in Above(place.c) ==> o is Element;
    }

    /** Moves to the next element that matches; null is the end. */
    method Next()
      requires place.At(elt)
      modifies this
      ensures place.At(elt) && (elt != null ==> query.Matches(elt))
      ensures old(elt) == null ==> elt == null
      ensures old(elt) != null ==> Found() == query.Filter(old(place.Coming())[1..])
      ensures old(elt) != null ==> old(Found()) == [old(elt)] + Found()
      ensures old(elt) != null ==> |place.Coming()| < |old(place.Coming())|
    {
      ghost var all := place.Coming();
      while elt != null
        invariant place.At(elt)
        invariant old(elt) != null ==>
                    if elt == null then query.Filter(all[1..]) == [] && all != []
                    else |place.Coming()| <= |all| && query.Filter(place.Coming()[1..]) == query.Filter(all[1..])
        invariant old(elt) == null ==> elt == null
        decreases |place.Coming()|
      {
        Advance();
        if elt == null || query.Matches(elt) {
          break;
        }
      }
    }
  }

  /** find: the search begins at the element itself. */
  method Find(e: Element, query: Query, ghost place: Place) returns (iter: ElementIterator)
    requires place.At(e) && query.CanBegin(e)
    ensures fresh(iter) && iter.query == query && iter.place.At(iter.elt)
    ensures iter.elt != null ==> (iter.elt == e && query.Begins(e)) || query.Matches(iter.elt)
    ensures place.Coming() != [] && iter.Found() == Yield(query, place.Coming())
  {
    iter := new ElementIterator(e, query, place);
    if !query.Begins(e) {
      iter.Next();
    }
  }

  /** The loop from find to the end. */
  method FindAll(e: Element, query: Query, ghost place: Place) returns (found: seq<Element>)
    requires place.At(e) && query.CanBegin(e)
    ensures place.Coming() != [] && found == Yield(query, place.Coming())
  {
    var iter := Find(e, query, place);
    found := Collect(iter);
  }

  method Collect(iter: ElementIterator) returns (found: seq<Element>)
    requires iter.place.At(iter.elt)
    modifies iter
    ensures found == old(iter.Found()) && iter.elt == null
    decreases |iter.place.Coming()|
  {
    if iter.elt == null {
      return [];
    }
    var e := iter.elt;
    iter.Next();
    found := Collect(iter);
    found := [e] + found;
  }

  /** What find and ++ yield together. */
  function Yield(query: Query, s: seq<Element>): seq<Element>
    requires s != []
  {
    (if query.Begins(s[0]) then [s[0]] else []) + query.Filter(s[1..])
  }

  /** The elements that match, in their order and as often as they stand there: those of a list and
      then those of another behind it. */
  lemma {:induction false} FilterParts(query: Query, s: seq<Element>, t: seq<Element>)
    ensures query.Filter(s + t) == query.Filter(s) + query.Filter(t)
  {
    if s == [] {
      assert s + t == t;
    } else {
      assert (s + t)[1..] == s[1..] + t;
      FilterParts(query, s[1..], t);
      var first := if query.Matches(s[0]) then [s[0]] else [];
      assert first + query.Filter(s[1..]) + query.Filter(t) == first + (query.Filter(s[1..]) + query.Filter(t));
    }
  }

  lemma FilterOne(query: Query, e: Element)
    ensures query.Filter([]) == [] && query.Filter([e]) == if query.Matches(e) then [e] else []
  {
    assert [e][1..] == [];
  }

  /** What the test of the iterator asks: of a search by tag, that of the names and of the
      namespaces those are the same that both have, if both have a name; of a search by type that
      the type is this one, unless it is zero. */
  lemma MatchesMeans(query: Query, e: Element)
    ensures
      match query
      case ByTag(same, nstr, name) =>
        query.Matches(e) <==>
        (name.Some? && e.name.Some? ==>
           same(e.name.value, name.value) && (nstr.Some? && e.nstr.Some? ==> same(e.nstr.value, nstr.value)))
      case ByType(kind) => query.Matches(e) <==> kind == 0 || e.kind == kind
  {
  }

  /** And the first test: the same of the namespaces even without a name, and of the type even if
      it is zero. */
  lemma BeginsMeans(query: Query, e: Element)
    ensures
      match query
      case ByTag(same, nstr, name) =>
        query.Begins(e) <==>
        (name.Some? && e.name.Some? ==> same(e.name.value, name.value))
        && (nstr.Some? && e.nstr.Some? ==> same(e.nstr.value, nstr.value))
      case ByType(kind) => query.Begins(e) <==> e.kind == kind
  {
  }

  /** A search by name through named elements finds exactly those with this name, and with the
      namespace if both have one. */
  lemma {:induction false} FoundByName(query: Query, s: seq<Element>, e: Element)
    requires query.ByTag? && query.name.Some? && s != [] && forall x <- s :: x.name.Some?
    ensures e in Yield(query, s) <==>
              e in s && query.same(e.name.value, query.name.value)
              && (query.nstr.Some? && e.nstr.Some? ==> query.same(e.nstr.value, query.nstr.value))
  {
    FindsWhatMatches(query, s);
    FilterHas(query, s, e);
  }

  lemma {:induction false} FilterHas(query: Query, s: seq<Element>, e: Element)
    ensures e in query.Filter(s) <==> e in s && query.Matches(e)
  {
    if s != [] {
      FilterHas(query, s[1..], e);
    }
  }

  /** With a name and a named first element, or with a type, what is found are the elements that
      match. */
  lemma FindsWhatMatches(query: Query, s: seq<Element>)
    requires s != []
    requires if query.ByTag? then query.name.Some? && s[0].name.Some? else query.kind != 0
    ensures Yield(query, s) == query.Filter(s)
  {
  }

  /** Without a name, or with type zero, every element but perhaps the first is found, whatever the
      namespace looked for; the first one only if it has that namespace, or that type. */
  lemma {:induction false} FindsAllTheRest(query: Query, s: seq<Element>)
    requires if query.ByTag? then query.name.None? else query.kind == 0
    ensures query.Filter(s) == s
    ensures s != [] ==> (Yield(query, s) == s <==> query.Begins(s[0]))
  {
    if s != [] {
      FindsAllTheRest(query, s[1..]);
    }
  }

  // ------------------------------------------------------------------------------------ adding

  ghost function Append(f: Forest, g: Forest): Forest {
    match f
    case Nil => g
    case Cons(e, kids, rest) => Cons(e, kids, Append(rest, g))
  }

  /** The forest with `g` behind the last child of `at`. */
  ghost function Graft(f: Forest, at: Element, g: Forest): Forest {
    match f
    case Nil => Nil
    case Cons(e, kids, rest) =>
      if e == at then Cons(e, Append(kids, g), rest)
      else if at in Elements(kids) then Cons(e, Graft(kids, at, g), rest)
      else Cons(e, kids, Graft(rest, at, g))
  }

  ghost function KidsOf(f: Forest, at: Element): (kids: Forest)
    ensures Elements(kids) <= Elements(f)
    ensures Distinct(f) ==> Distinct(kids) && at !in Elements(kids)
  {
    match f
    case Nil => Nil
    case Cons(e, kids, rest) =>
      if e == at then kids else if at in Elements(kids) then KidsOf(kids, at) else KidsOf(rest, at)
  }

  ghost function Last(f: Forest): (e: Element)
    requires f.Cons?
    ensures e in Elements(f)
  {
    if f.rest.Nil? then f.e else Last(f.rest)
  }

  lemma {:induction false} KidsAreLinked(f: Forest, first: Element?, parent: Element?, at: Element)
    requires Linked(f, first, parent) && at in Elements(f)
    ensures Linked(KidsOf(f, at), at.elts, at)
  {
    if f.e != at {
      if at in Elements(f.kids) {
        KidsAreLinked(f.kids, f.e.elts, f.e, at);
      } else {
        KidsAreLinked(f.rest, f.e.next, parent, at);
      }
    }
  }

  lemma {:induction false} AppendElements(f: Forest, g: Forest)
    ensures Elements(Append(f, g)) == Elements(f) + Elements(g)
  {
    if f.Cons? {
      AppendElements(f.rest, g);
    }
  }

  lemma {:induction false} AppendDistinct(f: Forest, g: Forest)
    requires Distinct(f) && Distinct(g) && Elements(f) !! Elements(g)
    ensures Distinct(Append(f, g))
  {
    if f.Cons? {
      AppendDistinct(f.rest, g);
      AppendElements(f.rest, g);
    }
  }

  lemma {:induction false} AppendPreorder(f: Forest, g: Forest)
    ensures Preorder(Append(f, g)) == Preorder(f) + Preorder(g)
  {
    if f.Cons? {
      AppendPreorder(f.rest, g);
    }
  }

  lemma {:induction false} GraftDistinct(f: Forest, at: Element, g: Forest)
    requires at in Elements(f) && Distinct(f) && Distinct(g) && Elements(f) !! Elements(g)
    ensures Elements(Graft(f, at, g)) == Elements(f) + Elements(g) && Distinct(Graft(f, at, g))
  {
    if f.e == at {
      AppendElements(f.kids, g);
      AppendDistinct(f.kids, g);
    } else if at in Elements(f.kids) {
      GraftDistinct(f.kids, at, g);
    } else {
      GraftDistinct(f.rest, at, g);
    }
  }

  /** The last of the siblings now points to what is appended; nothing else has changed. */
  twostate lemma {:induction false} AppendLinks(f: Forest, new g: Forest)
    requires f.Cons? && old(Linked(f, f.e, f.e.prnt)) && Distinct(f)
    requires g.Cons? && Last(f).next == g.e && Linked(g, g.e, f.e.prnt)
    requires forall o <- Elements(f) :: old(allocated(o)) ==>
               o.elts == old(o.elts) && o.prnt == old(o.prnt) && (o != Last(f) ==> o.next == old(o.next))
    ensures Linked(Append(f, g), f.e, f.e.prnt)
  {
    Untouched(f.kids);
    if f.rest.Cons? {
      AppendLinks(f.rest, g);
    }
  }

  twostate lemma {:induction false} Untouched(f: Forest)
    requires f.Cons? ==> old(Linked(f, f.e, f.e.prnt))
    requires forall o <- Elements(f) :: old(allocated(o)) ==>
               o.elts == old(o.elts) && o.prnt == old(o.prnt) && o.next == old(o.next)
    ensures f.Cons? ==> Linked(f, f.e, f.e.prnt)
  {
    if f.Cons? {
      Untouched(f.kids);
      Untouched(f.rest);
    }
  }

  /** When the new children of `at` are linked, and only `at` and its last child have changed,
      the whole is. */
  twostate lemma {:induction false} GraftLinks(f: Forest, new at: Element, new g: Forest)
    requires at in Elements(f) && old(Linked(f, f.e, f.e.prnt)) && Distinct(f)
    requires Linked(Append(KidsOf(f, at), g), at.elts, at)
    requires forall o <- Elements(f) :: old(allocated(o)) ==>
               && o.prnt == old(o.prnt) && (o != at ==> o.elts == old(o.elts))
               && (o !in Elements(KidsOf(f, at)) ==> o.next == old(o.next))
    ensures Linked(Graft(f, at, g), f.e, f.e.prnt)
  {
    if f.e == at {
      Untouched(f.rest);
    } else if at in Elements(f.kids) {
      GraftLinks(f.kids, at, g);
      Untouched(f.rest);
    } else {
      Untouched(f.kids);
      GraftLinks(f.rest, at, g);
    }
  }

  /** `s` is `before`, then `m`, then `after`. */
  ghost predicate Around(s: seq<Element>, before: seq<Element>, m: seq<Element>, after: seq<Element>) {
    s == before + m + after
  }

  /** In document order, what is added comes right behind `at` and all that was below it. */
  lemma {:induction false} GraftOrder(f: Forest, at: Element, g: Forest)
      returns (before: seq<Element>, after: seq<Element>)
    requires at in Elements(f)
    ensures Around(Preorder(f), before, [at] + Preorder(KidsOf(f, at)), after)
    ensures Around(Preorder(Graft(f, at, g)), before, [at] + Preorder(KidsOf(f, at)) + Preorder(g), after)
  {
    if f.e == at {
      AppendPreorder(f.kids, g);
      before, after := [], Preorder(f.rest);
    } else if at in Elements(f.kids) {
      before, after := GraftOrder(f.kids, at, g);
      GraftBelow(f, at, g, before, after);
      before, after := [f.e] + before, after + Preorder(f.rest);
    } else {
      before, after := GraftOrder(f.rest, at, g);
      GraftBeside(f, at, g, before, after);
      before := [f.e] + Preorder(f.kids) + before;
    }
  }

  lemma GraftBelow(f: Forest, at: Element, g: Forest, before: seq<Element>, after: seq<Element>)
    requires f.Cons? && f.e != at && at in Elements(f.kids)
    requires Around(Preorder(f.kids), before, [at] + Preorder(KidsOf(f.kids, at)), after)
    requires Around(Preorder(Graft(f.kids, at, g)), before, [at] + Preorder(KidsOf(f.kids, at)) + Preorder(g), after)
    ensures Around(Preorder(f), [f.e] + before, [at] + Preorder(KidsOf(f, at)), after + Preorder(f.rest))
    ensures Around(Preorder(Graft(f, at, g)), [f.e] + before, [at] + Preorder(KidsOf(f, at)) + Preorder(g),
                   after + Preorder(f.rest))
  {
    Wrap([f.e], Preorder(f.kids), Preorder(f.rest), before, [at] + Preorder(KidsOf(f, at)), after);
    Wrap([f.e], Preorder(Graft(f.kids, at, g)), Preorder(f.rest), before,
         [at] + Preorder(KidsOf(f, at)) + Preorder(g), after);
  }

  lemma GraftBeside(f: Forest, at: Element, g: Forest, before: seq<Element>, after: seq<Element>)
    requires f.Cons? && f.e != at && at !in Elements(f.kids)
    requires Around(Preorder(f.rest), before, [at] + Preorder(KidsOf(f.rest, at)), after)
    requires Around(Preorder(Graft(f.rest, at, g)), before, [at] + Preorder(KidsOf(f.rest, at)) + Preorder(g), after)
    ensures Around(Preorder(f), [f.e] + Preorder(f.kids) + before, [at] + Preorder(KidsOf(f, at)), after)
    ensures Around(Preorder(Graft(f, at, g)), [f.e] + Preorder(f.kids) + before,
                   [at] + Preorder(KidsOf(f, at)) + Preorder(g), after)
  {
    var front := [f.e] + Preorder(f.kids);
    Wrap(front, Preorder(f.rest), [], before, [at] + Preorder(KidsOf(f, at)), after);
    Wrap(front, Preorder(Graft(f.rest, at, g)), [], before, [at] + Preorder(KidsOf(f, at)) + Preorder(g), after);
  }

  lemma Wrap(p: seq<Element>, s: seq<Element>, q: seq<Element>, b: seq<Element>, m: seq<Element>, a: seq<Element>)
    requires Around(s, b, m, a)
    ensures Around(p + s + q, p + b, m, a + q)
    ensures q == [] ==> Around(p + s, p + b, m, a)
  {
  }

  // ------------------------------------------------------------------- a document, then its walk

  lemma GraftKeepsRoot(root: Element, kids: Forest, at: Element, g: Forest)
    requires at in Elements(Cons(root, kids, Nil))
    ensures Graft(Cons(root, kids, Nil), at, g) ==
            Cons(root, if at == root then Append(kids, g) else Graft(kids, at, g), Nil)
  {
  }

  /** The elements made so far form a document below the first of them. */
  ghost predicate IsDocument(all: seq<Element>, f: Forest)
    reads Elements(f)
  {
    && all != [] && f.Cons? && f.rest.Nil? && f.e == all[0]
    && Linked(f, f.e, null) && Distinct(f) && AreElements(all, f)
  }

  ghost predicate AreElements(all: seq<Element>, f: Forest) {
    Elements(f) == (set e | e in all) && |Elements(f)| == |all|
  }

  lemma OneElementMore(all: seq<Element>, elt: Element, f: Forest, g: Forest)
    requires AreElements(all, f) && elt !in all && Elements(g) == Elements(f) + {elt}
    ensures AreElements(all + [elt], g)
  {
    assert |Elements(f) + {elt}| == |Elements(f)| + 1;
  }

  /** Adds a fresh element below one of those there are. */
  method AddBelow(all: seq<Element>, parent: nat, elt: Element, ghost f: Forest) returns (ghost g: Forest)
    requires IsDocument(all, f) && parent < |all| && elt !in all
    requires elt.elts == null && elt.next == null
    modifies elt, Elements(f)
    ensures IsDocument(all + [elt], g) && Elements(g) == Elements(f) + {elt}
  {
    ghost var one := Cons(elt, Nil, Nil);
    assert all[parent] in Elements(f);
    GraftKeepsRoot(f.e, f.kids, all[parent], one);
    GraftDistinct(f, all[parent], one);
    all[parent].Add(elt, f, Nil);
    g := Graft(f, all[parent], one);
    OneElementMore(all, elt, f, g);
  }

  method NewElement(all: seq<Element>, ghost f: Forest) returns (elt: Element)
    requires IsDocument(all, f)
    ensures fresh(elt) && elt !in all && elt.elts == null && elt.next == null && IsDocument(all, f)
  {
    elt := new Element(None, None, 0);
    Untouched(f);
  }

  method NewRoot() returns (all: seq<Element>, ghost f: Forest)
    ensures |all| == 1 && IsDocument(all, f) && fresh(Elements(f))
  {
    var root := new Element(None, None, 0);
    all, f := [root], Cons(root, Nil, Nil);
  }

  method Grow(all: seq<Element>, parent: nat, ghost f: Forest) returns (more: seq<Element>, ghost g: Forest)
    requires IsDocument(all, f) && parent < |all|
    modifies Elements(f)
    ensures |more| == |all| + 1 && IsDocument(more, g) && fresh(Elements(g) - Elements(f))
  {
    var elt := NewElement(all, f);
    g := AddBelow(all, parent, elt, f);
    more := all + [elt];
  }

  /** A fresh root, and each further element below the earlier one that `parents` names. */
  method Build(parents: seq<nat>) returns (all: seq<Element>, ghost f: Forest)
    requires forall i :: 0 <= i < |parents| ==> parents[i] <= i
    ensures |all| == |parents| + 1 && IsDocument(all, f) && fresh(Elements(f))
  {
    if parents == [] {
      all, f := NewRoot();
    } else {
      all, f := Build(parents[..|parents| - 1]);
      all, f := Grow(all, parents[|parents| - 1], f);
    }
  }

  lemma RootStandsAlone(all: seq<Element>, f: Forest)
    requires IsDocument(all, f)
    ensures f == Cons(f.e, f.kids, Nil) && Linked(f.kids, f.e.elts, f.e) && f.e.next == null && f.e.prnt == null
  {
    assert Linked(f.rest, f.e.next, null);
  }

  /** However a document is built below a fresh root, each element in turn below any earlier one,
      the walk visits all of its elements, and each of them once. */
  method BuildAndWalk(parents: seq<nat>) returns (all: seq<Element>, seen: seq<Element>)
    requires forall i :: 0 <= i < |parents| ==> parents[i] <= i
    ensures |seen| == |all| == |parents| + 1
    ensures forall i :: 0 <= i < |all| ==> all[i] in seen
    ensures forall i, j :: 0 <= i < j < |seen| ==> seen[i] != seen[j]
  {
    ghost var f;
    all, f := Build(parents);
    RootStandsAlone(all, f);
    WalkIsComplete(all, f);
    seen := Walk(all[0], f.kids);
  }

  lemma WalkIsComplete(all: seq<Element>, f: Forest)
    requires IsDocument(all, f)
    ensures |Preorder(f)| == |all|
    ensures forall i :: 0 <= i < |all| ==> all[i] in Preorder(f)
    ensures forall i, j :: 0 <= i < j < |Preorder(f)| ==> Preorder(f)[i] != Preorder(f)[j]
  {
    PreorderIsComplete(f);
    PreorderIsDistinct(f);
    PreorderSize(f);
  }

  lemma {:induction false} PreorderSize(f: Forest)
    requires Distinct(f)
    ensures |Preorder(f)| == |Elements(f)|
  {
    if f.Cons? {
      PreorderSize(f.kids);
      PreorderSize(f.rest);
      assert |{f.e} + Elements(f.kids)| == 1 + |Elements(f.kids)|;
    }
  }
}
