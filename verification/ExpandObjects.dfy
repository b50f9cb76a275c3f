/**
 The batched expansion of `expand[]` (packages/backend/src/lib/expand.ts): it
 replaces ids by the objects they name, in place, with one read a field. Holders
 that name one id share one loaded object. Objects are cells of an arena, and a
 reference is an index into it.
 */
module ExpandObjects {
  import opened Results
  import opened ExpandPaths

  /** A field as a read renders it: a string, or any other JSON value. */
  datatype Scalar = Text(id: string) | Opaque(json: nat)

  type Plain = map<string, Scalar>

  datatype Value = Held(scalar: Scalar) | Pointer(ref: nat)

  type Object = map<string, Value>

  /** What the response prints: the object with its references followed. */
  datatype Json = Leaf(scalar: Scalar) | Nested(fields: map<string, Json>)

  /** The merchant's read of one id of a type. */
  type Loader = (string, string) -> Option<Plain>

  datatype Outcome = Done | NotRegistered | NotReadable

  // ------------------------------------------------------- one object on its own

  ghost predicate Distinct(t: Tree) {
    && (forall i, j :: 0 <= i < j < |t.entries| ==> t.entries[i].field != t.entries[j].field)
    && forall i :: 0 <= i < |t.entries| ==> Distinct(t.entries[i].subtree)
  }

  ghost predicate Registered(registry: Registry, holder: string, t: Tree)
    decreases t, 1
  {
    forall i :: 0 <= i < |t.entries| ==> RegisteredAt(registry, holder, t, i)
  }

  ghost predicate RegisteredAt(registry: Registry, holder: string, t: Tree, i: nat)
    requires i < |t.entries|
    decreases t, 0
  {
    var next := Follow(registry, holder, t.entries[i].field);
    next.Some? && Registered(registry, next.value, t.entries[i].subtree)
  }

  lemma {:induction false} FittingTree(registry: Registry, holder: string, t: Tree, depth: nat)
    requires Fits(registry, holder, t, depth)
    ensures Distinct(t) && Registered(registry, holder, t)
    decreases depth
  {
    forall i | 0 <= i < |t.entries| ensures Distinct(t.entries[i].subtree) && RegisteredAt(registry, holder, t, i) {
      FittingTree(registry, Follow(registry, holder, t.entries[i].field).value, t.entries[i].subtree, depth - 1);
    }
  }

  /** What an id under a field names, if the field is registered and the merchant can read it. */
  function Named(registry: Registry, load: Loader, holder: string, field: string, scalar: Scalar): Option<Plain> {
    var target := Follow(registry, holder, field);
    if scalar.Text? && target.Some? then load(target.value, scalar.id) else None
  }

  function IndexOf(t: Tree, field: string): (i: nat)
    ensures i <= |t.entries| && (i < |t.entries| ==> t.entries[i].field == field)
  {
    IndexFrom(t, field, 0)
  }

  function IndexFrom(t: Tree, field: string, from: nat): (i: nat)
    requires from <= |t.entries|
    ensures from <= i <= |t.entries| && (i < |t.entries| ==> t.entries[i].field == field)
    decreases |t.entries| - from
  {
    if from == |t.entries| || t.entries[from].field == field then from else IndexFrom(t, field, from + 1)
  }

  lemma {:induction false} IndexFromFirst(t: Tree, k: nat, from: nat)
    requires from <= k < |t.entries| && forall i :: 0 <= i < k ==> t.entries[i].field != t.entries[k].field
    ensures IndexFrom(t, t.entries[k].field, from) == k
    decreases k - from
  {
    if from < k {
      IndexFromFirst(t, k, from + 1);
    }
  }

  /** One object expanded by itself, its ids replaced by their own expansions. */
  ghost function Alone(registry: Registry, load: Loader, holder: string, o: Plain, t: Tree): map<string, Json>
    decreases t
  {
    map field | field in o :: AloneField(registry, load, holder, field, o[field], t, IndexOf(t, field))
  }

  ghost function AloneField(registry: Registry, load: Loader, holder: string, field: string, scalar: Scalar, t: Tree,
      i: nat): Json
    decreases t, 0
  {
    var named := Named(registry, load, holder, field, scalar);
    if i < |t.entries| && named.Some?
    then Nested(Alone(registry, load, Follow(registry, holder, field).value, named.value, t.entries[i].subtree))
    else Leaf(scalar)
  }

  /** Every id the tree expands from the object names something the merchant can read. */
  ghost predicate Readable(registry: Registry, load: Loader, holder: string, o: Plain, t: Tree)
    decreases t, 1
  {
    forall i :: 0 <= i < |t.entries| ==> ReadableAt(registry, load, holder, o, t, i)
  }

  ghost predicate ReadableAt(registry: Registry, load: Loader, holder: string, o: Plain, t: Tree, i: nat)
    requires i < |t.entries|
    decreases t, 0
  {
    var field := t.entries[i].field;
    field in o && o[field].Text? ==>
      var named := Named(registry, load, holder, field, o[field]);
      named.Some? && Readable(registry, load, Follow(registry, holder, field).value, named.value, t.entries[i].subtree)
  }

  /** The reads of one expansion: one for every field in the tree. */
  function Calls(t: Tree): nat
    decreases t, |t.entries| + 1
  {
    CallsTo(t, |t.entries|)
  }

  function CallsTo(t: Tree, k: nat): nat
    requires k <= |t.entries|
    decreases t, k
  {
    if k == 0 then 0 else CallsTo(t, k - 1) + 1 + Calls(t.entries[k - 1].subtree)
  }

  // --------------------------------------------------------------------- the arena

  function Fresh(o: Plain): Object {
    map field | field in o :: Held(o[field])
  }

  function PlainOf(o: Object): Plain {
    map field | field in o && o[field].Held? :: o[field].scalar
  }

  predicate IsPlain(o: Object) {
    forall field :: field in o ==> o[field].Held?
  }

  /** References lead to later cells: an object is loaded after its holder. */
  ghost predicate Ordered(heap: seq<Object>) {
    forall r, field :: 0 <= r < |heap| && field in heap[r] && heap[r][field].Pointer?
        ==> r < heap[r][field].ref < |heap|
  }

  ghost function View(heap: seq<Object>, r: nat): map<string, Json>
    requires Ordered(heap) && r < |heap|
    decreases |heap| - r
  {
    map field | field in heap[r] ::
      if heap[r][field].Held? then Leaf(heap[r][field].scalar) else Nested(View(heap, heap[r][field].ref))
  }

  /** What stands behind cells that did not change did not change. */
  lemma {:induction false} ViewFrame(before: seq<Object>, after: seq<Object>, base: nat, r: nat)
    requires Ordered(before) && Ordered(after) && base <= r < |before| <= |after|
    requires forall q :: base <= q < |before| ==> after[q] == before[q]
    ensures View(after, r) == View(before, r)
    decreases |before| - r
  {
    forall field | field in before[r] && before[r][field].Pointer?
      ensures View(after, before[r][field].ref) == View(before, before[r][field].ref)
    {
      ViewFrame(before, after, base, before[r][field].ref);
    }
  }

  ghost predicate Within(objects: seq<nat>, heap: seq<Object>) {
    forall r :: r in objects ==> r < |heap|
  }

  ghost predicate AllPlain(objects: seq<nat>, heap: seq<Object>)
    requires Within(objects, heap)
  {
    forall r :: r in objects ==> IsPlain(heap[r])
  }

  /** Only the objects themselves changed, and new cells were added. */
  ghost predicate Confined(before: seq<Object>, after: seq<Object>, objects: seq<nat>) {
    |before| <= |after| && forall r :: 0 <= r < |before| && r !in objects ==> after[r] == before[r]
  }

  /** Every object of the batch now shows what it shows when it is expanded alone. */
  ghost predicate ShowAlone(registry: Registry, load: Loader, holder: string, before: seq<Object>, after: seq<Object>,
      objects: seq<nat>, t: Tree)
    requires Within(objects, before) && |before| <= |after| && Ordered(after)
  {
    forall r :: r in objects ==> View(after, r) == Alone(registry, load, holder, PlainOf(before[r]), t)
  }

  /** The state of field `f` of object `r` when the first `k` fields of the tree are expanded. */
  ghost predicate FieldDone(registry: Registry, load: Loader, holder: string, before: seq<Object>, after: seq<Object>,
      r: nat, f: string, t: Tree, k: nat)
    requires r < |before| <= |after| && Ordered(after) && f in before[r] && f in after[r] && before[r][f].Held?
  {
    var i, scalar := IndexOf(t, f), before[r][f].scalar;
    if i < k && i < |t.entries| && scalar.Text? then
      var named := Named(registry, load, holder, f, scalar);
      && named.Some? && after[r][f].Pointer? && |before| <= after[r][f].ref
      && View(after, after[r][f].ref) == Alone(registry, load, Follow(registry, holder, f).value, named.value,
        t.entries[i].subtree)
    else after[r][f] == before[r][f]
  }

  ghost predicate Expanded(registry: Registry, load: Loader, holder: string, before: seq<Object>, after: seq<Object>,
      objects: seq<nat>, t: Tree, k: nat)
    requires Within(objects, before) && AllPlain(objects, before)
  {
    && Ordered(after) && Confined(before, after, objects)
    && (forall r :: r in objects ==> after[r].Keys == before[r].Keys)
    && forall r, f :: r in objects && f in before[r] ==> FieldDone(registry, load, holder, before, after, r, f, t, k)
  }

  ghost function ViewField(heap: seq<Object>, r: nat, f: string): Json
    requires Ordered(heap) && r < |heap| && f in heap[r]
  {
    if heap[r][f].Held? then Leaf(heap[r][f].scalar) else Nested(View(heap, heap[r][f].ref))
  }

  lemma {:induction false} FieldShows(registry: Registry, load: Loader, holder: string, before: seq<Object>,
      after: seq<Object>, r: nat, f: string, t: Tree)
    requires r < |before| <= |after| && Ordered(after) && f in before[r] && f in after[r] && before[r][f].Held?
    requires FieldDone(registry, load, holder, before, after, r, f, t, |t.entries|)
    ensures ViewField(after, r, f) == AloneField(registry, load, holder, f, before[r][f].scalar, t, IndexOf(t, f))
  {
  }

  lemma {:induction false} ObjectShows(registry: Registry, load: Loader, holder: string, before: seq<Object>,
      after: seq<Object>, objects: seq<nat>, t: Tree, r: nat)
    requires Within(objects, before) && AllPlain(objects, before) && r in objects
    requires Expanded(registry, load, holder, before, after, objects, t, |t.entries|)
    ensures View(after, r) == Alone(registry, load, holder, PlainOf(before[r]), t)
  {
    var alone := Alone(registry, load, holder, PlainOf(before[r]), t);
    assert after[r].Keys == before[r].Keys;
    forall f | f in before[r] ensures View(after, r)[f] == alone[f] {
      FieldShows(registry, load, holder, before, after, r, f, t);
    }
    assert View(after, r).Keys == alone.Keys;
  }

  /** When every field of the tree is expanded, the batch shows what each object alone shows. */
  lemma {:induction false} ExpandedShows(registry: Registry, load: Loader, holder: string, before: seq<Object>,
      after: seq<Object>, objects: seq<nat>, t: Tree)
    requires Within(objects, before) && AllPlain(objects, before)
    requires Expanded(registry, load, holder, before, after, objects, t, |t.entries|)
    ensures ShowAlone(registry, load, holder, before, after, objects, t)
  {
    forall r | r in objects ensures View(after, r) == Alone(registry, load, holder, PlainOf(before[r]), t) {
      ObjectShows(registry, load, holder, before, after, objects, t, r);
    }
  }

  function Link(o: Object, field: string, loaded: map<string, nat>): Object {
    if field in o && o[field].Held? && o[field].scalar.Text? && o[field].scalar.id in loaded
    then o[field := Pointer(loaded[o[field].scalar.id])] else o
  }

  ghost predicate Linked(before: seq<Object>, after: seq<Object>, objects: seq<nat>, field: string,
      loaded: map<string, nat>) {
    |after| == |before| && forall r :: 0 <= r < |before| ==>
      after[r] == if r in objects then Link(before[r], field, loaded) else before[r]
  }

  predicate Names(heap: seq<Object>, r: nat, field: string, id: string) {
    r < |heap| && field in heap[r] && heap[r][field] == Held(Text(id))
  }

  ghost predicate NamedBy(heap: seq<Object>, objects: seq<nat>, field: string, id: string) {
    exists r :: r in objects && Names(heap, r, field, id)
  }

  lemma {:induction false} NamedBySnoc(heap: seq<Object>, objects: seq<nat>, r: nat, field: string, id: string)
    ensures NamedBy(heap, objects + [r], field, id) <==> NamedBy(heap, objects, field, id) || Names(heap, r, field, id)
  {
    if NamedBy(heap, objects, field, id) {
      var q :| q in objects && Names(heap, q, field, id);
      assert q in objects + [r];
    }
    assert r in objects + [r];
  }

  /** One read of `target`: every id the merchant can read has a new cell. */
  ghost predicate Loaded(load: Loader, target: string, before: seq<Object>, after: seq<Object>, ids: seq<string>,
      loaded: map<string, nat>) {
    && before <= after
    && (forall id :: id in loaded <==> id in ids && load(target, id).Some?)
    && (forall id :: id in loaded ==>
      |before| <= loaded[id] < |after|
      && after[loaded[id]] == Fresh(load(target, id).value))
    && forall r :: |before| <= r < |after| ==> IsPlain(after[r])
  }

  ghost predicate Produced(heap: seq<Object>, objects: seq<nat>, field: string, loaded: map<string, nat>, q: nat) {
    exists r, id :: r in objects && Names(heap, r, field, id) && id in loaded && loaded[id] == q
  }

  ghost predicate AllLoaded(heap: seq<Object>, objects: seq<nat>, field: string, loaded: map<string, nat>) {
    forall r, id :: r in objects && Names(heap, r, field, id) ==> id in loaded
  }

  ghost predicate AllReadable(registry: Registry, load: Loader, holder: string, heap: seq<Object>, objects: seq<nat>,
      t: Tree)
    requires Within(objects, heap)
  {
    forall r :: r in objects ==> Readable(registry, load, holder, PlainOf(heap[r]), t)
  }

  ghost predicate AllReadableAt(registry: Registry, load: Loader, holder: string, heap: seq<Object>,
      objects: seq<nat>, t: Tree, i: nat)
    requires Within(objects, heap) && i < |t.entries|
  {
    forall r :: r in objects ==> ReadableAt(registry, load, holder, PlainOf(heap[r]), t, i)
  }

  /**
   The expansion of field `k`: the cells when the batch started (`h0`), before and
   after the field's read (`h`, `h1`), and what was read.
   */
  datatype Level = Level(
    registry: Registry, load: Loader, holder: string, t: Tree, k: nat, objects: seq<nat>,
    h0: seq<Object>, h: seq<Object>, h1: seq<Object>, ids: seq<string>, loaded: map<string, nat>)
  {
    ghost predicate Valid() {
      && k < |t.entries| && Distinct(t) && Within(objects, h0) && AllPlain(objects, h0)
      && t.entries[k].field in registry(holder)
      && Expanded(registry, load, holder, h0, h, objects, t, k)
      && (forall id :: id in ids <==> NamedBy(h, objects, Field(), id))
      && Loaded(load, Target(), h, h1, ids, loaded)
    }

    function Field(): string
      requires k < |t.entries|
    {
      t.entries[k].field
    }

    function Target(): string
      requires k < |t.entries| && t.entries[k].field in registry(holder)
    {
      registry(holder)[t.entries[k].field]
    }
  }

  /** The field to expand still holds what it held when the batch started. */
  lemma {:induction false} FieldUntouched(l: Level, r: nat, id: string)
    requires l.Valid() && r in l.objects
    ensures Names(l.h1, r, l.Field(), id) <==> Names(l.h0, r, l.Field(), id)
    ensures Names(l.h1, r, l.Field(), id) <==> Names(l.h, r, l.Field(), id)
  {
    IndexFromFirst(l.t, l.k, 0);
    assert l.h1[r] == l.h[r];
    if l.Field() in l.h0[r] {
      assert FieldDone(l.registry, l.load, l.holder, l.h0, l.h, r, l.Field(), l.t, l.k);
    }
  }

  /** Linking leads from the holders to cells of the read, which are still as they were read. */
  lemma {:induction false} LinkedCells(l: Level, h2: seq<Object>)
    requires l.Valid() && Linked(l.h1, h2, l.objects, l.Field(), l.loaded)
    ensures Ordered(h2)
    ensures forall id :: id in l.loaded ==>
      l.loaded[id] < |h2| && h2[l.loaded[id]] == Fresh(l.load(l.Target(), id).value) && IsPlain(h2[l.loaded[id]])
  {
    forall r, f | 0 <= r < |h2| && f in h2[r] && h2[r][f].Pointer? ensures r < h2[r][f].ref < |h2| {
      if r < |l.h| {
        assert l.h1[r] == l.h[r];
      }
    }
  }

  lemma {:induction false} FreshPlain(o: Plain)
    ensures IsPlain(Fresh(o)) && PlainOf(Fresh(o)) == o
  {
  }

  /** The level below starts from cells that are as they were read. */
  lemma {:induction false} CanDescend(l: Level, h2: seq<Object>, produced: seq<nat>)
    requires l.Valid() && Linked(l.h1, h2, l.objects, l.Field(), l.loaded)
    requires forall q :: q in produced <==> Produced(l.h1, l.objects, l.Field(), l.loaded, q)
    ensures Ordered(h2) && Within(produced, h2) && AllPlain(produced, h2) && Distinct(l.t.entries[l.k].subtree)
  {
    LinkedCells(l, h2);
    forall q | q in produced ensures q < |h2| && IsPlain(h2[q]) {
      var r, id :| r in l.objects && Names(l.h1, r, l.Field(), id) && id in l.loaded && l.loaded[id] == q;
    }
  }

  /** Whether an object that names an id is readable at the field, told by what the read gave. */
  lemma {:induction false} ReadableNamed(l: Level, h2: seq<Object>, r: nat, id: string)
    requires l.Valid() && Linked(l.h1, h2, l.objects, l.Field(), l.loaded)
    requires r in l.objects && Names(l.h1, r, l.Field(), id)
    ensures id in l.loaded ==> l.loaded[id] < |h2|
    ensures ReadableAt(l.registry, l.load, l.holder, PlainOf(l.h0[r]), l.t, l.k) <==>
      id in l.loaded && Readable(l.registry, l.load, l.Target(), PlainOf(h2[l.loaded[id]]), l.t.entries[l.k].subtree)
  {
    FieldUntouched(l, r, id);
    assert NamedBy(l.h, l.objects, l.Field(), id);
    LinkedCells(l, h2);
    if id in l.loaded {
      FreshPlain(l.load(l.Target(), id).value);
    }
  }

  lemma {:induction false} ReadableUnnamed(l: Level, r: nat)
    requires l.Valid() && r in l.objects && forall id :: !Names(l.h1, r, l.Field(), id)
    ensures ReadableAt(l.registry, l.load, l.holder, PlainOf(l.h0[r]), l.t, l.k)
  {
    if l.Field() in l.h0[r] && l.h0[r][l.Field()].scalar.Text? {
      FieldUntouched(l, r, l.h0[r][l.Field()].scalar.id);
    }
  }

  /** The batch is readable at the field exactly when all was read and what was read is readable. */
  lemma {:induction false} LevelReadable(l: Level, h2: seq<Object>, produced: seq<nat>)
    requires l.Valid() && Linked(l.h1, h2, l.objects, l.Field(), l.loaded)
      && AllLoaded(l.h1, l.objects, l.Field(), l.loaded)
    requires forall q :: q in produced <==> Produced(l.h1, l.objects, l.Field(), l.loaded, q)
    requires Within(produced, h2)
    ensures AllReadableAt(l.registry, l.load, l.holder, l.h0, l.objects, l.t, l.k) <==>
      AllReadable(l.registry, l.load, l.Target(), h2, produced, l.t.entries[l.k].subtree)
  {
    var subtree := l.t.entries[l.k].subtree;
    if AllReadable(l.registry, l.load, l.Target(), h2, produced, subtree) {
      forall r | r in l.objects ensures ReadableAt(l.registry, l.load, l.holder, PlainOf(l.h0[r]), l.t, l.k) {
        if id :| Names(l.h1, r, l.Field(), id) {
          ReadableNamed(l, h2, r, id);
          assert Produced(l.h1, l.objects, l.Field(), l.loaded, l.loaded[id]);
        } else {
          ReadableUnnamed(l, r);
        }
      }
    }
    if AllReadableAt(l.registry, l.load, l.holder, l.h0, l.objects, l.t, l.k) {
      forall q | q in produced ensures Readable(l.registry, l.load, l.Target(), PlainOf(h2[q]), subtree) {
        var r, id :| r in l.objects && Names(l.h1, r, l.Field(), id) && id in l.loaded && l.loaded[id] == q;
        ReadableNamed(l, h2, r, id);
      }
    }
  }

  /** An id that was not read makes the batch unreadable. */
  lemma {:induction false} LevelUnreadable(l: Level)
    requires l.Valid() && !AllLoaded(l.h1, l.objects, l.Field(), l.loaded)
    ensures !AllReadableAt(l.registry, l.load, l.holder, l.h0, l.objects, l.t, l.k)
  {
    var r, id :| r in l.objects && Names(l.h1, r, l.Field(), id) && id !in l.loaded;
    FieldUntouched(l, r, id);
    assert NamedBy(l.h, l.objects, l.Field(), id);
    assert !ReadableAt(l.registry, l.load, l.holder, PlainOf(l.h0[r]), l.t, l.k);
  }

  /** The cells after the field's own level: the holders linked, what they hold expanded. */
  ghost predicate Descended(l: Level, h2: seq<Object>, produced: seq<nat>, h3: seq<Object>)
    requires l.Valid()
  {
    && Linked(l.h1, h2, l.objects, l.Field(), l.loaded) && AllLoaded(l.h1, l.objects, l.Field(), l.loaded)
    && (forall q :: q in produced <==> Produced(l.h1, l.objects, l.Field(), l.loaded, q))
    && Within(produced, h2) && Ordered(h3) && Confined(h2, h3, produced)
    && ShowAlone(l.registry, l.load, l.Target(), h2, h3, produced, l.t.entries[l.k].subtree)
  }

  /** Outside the read's cells, the level below changed nothing. */
  lemma {:induction false} OldCells(l: Level, h2: seq<Object>, produced: seq<nat>, h3: seq<Object>, r: nat)
    requires l.Valid() && Descended(l, h2, produced, h3) && r < |l.h|
    ensures h3[r] == if r in l.objects then Link(l.h[r], l.Field(), l.loaded) else l.h[r]
  {
    assert r !in produced;
    assert l.h1[r] == l.h[r];
  }

  /** What the id of a holder was replaced by shows what the id names, expanded alone. */
  lemma {:induction false} LoadedShows(l: Level, h2: seq<Object>, produced: seq<nat>, h3: seq<Object>, r: nat,
      id: string)
    requires l.Valid() && Descended(l, h2, produced, h3) && r in l.objects && Names(l.h0, r, l.Field(), id)
    ensures id in l.loaded && |l.h0| <= l.loaded[id] < |h3| && l.load(l.Target(), id).Some?
    ensures View(h3, l.loaded[id]) == Alone(l.registry, l.load, l.Target(), l.load(l.Target(), id).value,
      l.t.entries[l.k].subtree)
  {
    FieldUntouched(l, r, id);
    assert Produced(l.h1, l.objects, l.Field(), l.loaded, l.loaded[id]);
    LinkedCells(l, h2);
    FreshPlain(l.load(l.Target(), id).value);
  }

  lemma {:induction false} FieldAsBefore(l: Level, r: nat)
    requires l.Valid() && r in l.objects && l.Field() in l.h0[r]
    ensures l.Field() in l.h[r] && l.h[r][l.Field()] == l.h0[r][l.Field()]
  {
    IndexFromFirst(l.t, l.k, 0);
    assert FieldDone(l.registry, l.load, l.holder, l.h0, l.h, r, l.Field(), l.t, l.k);
  }

  /** A holder that now points at what its id names, expanded alone, is done. */
  lemma {:induction false} PointerDone(registry: Registry, load: Loader, holder: string, before: seq<Object>,
      after: seq<Object>, r: nat, f: string, t: Tree, k: nat, named: Plain)
    requires r < |before| <= |after| && Ordered(after) && f in before[r] && f in after[r] && before[r][f].Held?
    requires k < |t.entries| && IndexOf(t, f) == k
      && Named(registry, load, holder, f, before[r][f].scalar) == Some(named)
    requires after[r][f].Pointer? && |before| <= after[r][f].ref
    requires View(after, after[r][f].ref)
      == Alone(registry, load, Follow(registry, holder, f).value, named, t.entries[k].subtree)
    ensures FieldDone(registry, load, holder, before, after, r, f, t, k + 1)
  {
  }

  lemma {:induction false} StepFieldText(l: Level, h2: seq<Object>, produced: seq<nat>, h3: seq<Object>, r: nat,
      id: string)
    requires l.Valid() && Descended(l, h2, produced, h3) && r in l.objects && Names(l.h0, r, l.Field(), id)
    requires h3[r] == Link(l.h[r], l.Field(), l.loaded) && IndexOf(l.t, l.Field()) == l.k
    ensures l.Field() in h3[r] && FieldDone(l.registry, l.load, l.holder, l.h0, h3, r, l.Field(), l.t, l.k + 1)
  {
    var f := l.Field();
    FieldAsBefore(l, r);
    LoadedShows(l, h2, produced, h3, r, id);
    assert h3[r][f] == Pointer(l.loaded[id]);
    PointerDone(l.registry, l.load, l.holder, l.h0, h3, r, f, l.t, l.k, l.load(l.Target(), id).value);
  }

  lemma {:induction false} StepFieldItself(l: Level, h2: seq<Object>, produced: seq<nat>, h3: seq<Object>, r: nat)
    requires l.Valid() && Descended(l, h2, produced, h3) && r in l.objects && l.Field() in l.h0[r]
    ensures l.Field() in h3[r] && FieldDone(l.registry, l.load, l.holder, l.h0, h3, r, l.Field(), l.t, l.k + 1)
  {
    var f := l.Field();
    IndexFromFirst(l.t, l.k, 0);
    OldCells(l, h2, produced, h3, r);
    if l.h0[r][f].scalar.Text? {
      StepFieldText(l, h2, produced, h3, r, l.h0[r][f].scalar.id);
    } else {
      assert FieldDone(l.registry, l.load, l.holder, l.h0, l.h, r, f, l.t, l.k);
    }
  }

  lemma {:induction false} StepFieldOther(l: Level, h2: seq<Object>, produced: seq<nat>, h3: seq<Object>, r: nat,
      f: string)
    requires l.Valid() && Descended(l, h2, produced, h3) && r in l.objects && f in l.h0[r] && f != l.Field()
    ensures f in h3[r] && FieldDone(l.registry, l.load, l.holder, l.h0, h3, r, f, l.t, l.k + 1)
  {
    OldCells(l, h2, produced, h3, r);
    assert FieldDone(l.registry, l.load, l.holder, l.h0, l.h, r, f, l.t, l.k);
    assert IndexOf(l.t, f) != l.k;
    if l.h[r][f].Pointer? {
      forall q | |l.h0| <= q < |l.h| ensures h3[q] == l.h[q] {
        OldCells(l, h2, produced, h3, q);
      }
      ViewFrame(l.h, h3, |l.h0|, l.h[r][f].ref);
    }
  }

  lemma {:induction false} ExpandStep(l: Level, h2: seq<Object>, produced: seq<nat>, h3: seq<Object>)
    requires l.Valid() && Descended(l, h2, produced, h3)
    ensures Expanded(l.registry, l.load, l.holder, l.h0, h3, l.objects, l.t, l.k + 1)
  {
    forall r | 0 <= r < |l.h0| && r !in l.objects ensures h3[r] == l.h0[r] {
      OldCells(l, h2, produced, h3, r);
    }
    forall r | r in l.objects ensures h3[r].Keys == l.h0[r].Keys {
      OldCells(l, h2, produced, h3, r);
    }
    forall r, f | r in l.objects && f in l.h0[r]
      ensures f in h3[r] && FieldDone(l.registry, l.load, l.holder, l.h0, h3, r, f, l.t, l.k + 1)
    {
      if f == l.Field() {
        StepFieldItself(l, h2, produced, h3, r);
      } else {
        StepFieldOther(l, h2, produced, h3, r, f);
      }
    }
  }

  /** An empty tree changes nothing, and nothing is what is asked. */
  lemma {:induction false} NothingToExpand(registry: Registry, load: Loader, holder: string, heap: seq<Object>,
      objects: seq<nat>, t: Tree)
    requires Ordered(heap) && Within(objects, heap) && AllPlain(objects, heap) && t.entries == []
    ensures Registered(registry, holder, t) && AllReadable(registry, load, holder, heap, objects, t)
    ensures ShowAlone(registry, load, holder, heap, heap, objects, t) && Calls(t) == 0
  {
    assert Expanded(registry, load, holder, heap, heap, objects, t, 0);
    ExpandedShows(registry, load, holder, heap, heap, objects, t);
  }

  lemma {:induction false} ReadableEverywhere(registry: Registry, load: Loader, holder: string, heap: seq<Object>,
      objects: seq<nat>, t: Tree)
    requires Within(objects, heap)
    ensures AllReadable(registry, load, holder, heap, objects, t) <==>
      forall i :: 0 <= i < |t.entries| ==> AllReadableAt(registry, load, holder, heap, objects, t, i)
  {
    if forall i :: 0 <= i < |t.entries| ==> AllReadableAt(registry, load, holder, heap, objects, t, i) {
      forall r | r in objects ensures Readable(registry, load, holder, PlainOf(heap[r]), t) {
        forall i | 0 <= i < |t.entries| ensures ReadableAt(registry, load, holder, PlainOf(heap[r]), t, i) {
          assert AllReadableAt(registry, load, holder, heap, objects, t, i);
        }
      }
    }
    if AllReadable(registry, load, holder, heap, objects, t) {
      forall i | 0 <= i < |t.entries| ensures AllReadableAt(registry, load, holder, heap, objects, t, i) {
        forall r | r in objects ensures ReadableAt(registry, load, holder, PlainOf(heap[r]), t, i) {
          assert Readable(registry, load, holder, PlainOf(heap[r]), t);
        }
      }
    }
  }

  /** The first `k` fields of the tree are expanded, with `n` reads. */
  ghost predicate Progress(registry: Registry, load: Loader, holder: string, before: seq<Object>, after: seq<Object>,
      objects: seq<nat>, t: Tree, k: nat, n: int)
    requires Within(objects, before) && AllPlain(objects, before)
  {
    && k <= |t.entries| && n == CallsTo(t, k)
    && Expanded(registry, load, holder, before, after, objects, t, k)
    && forall i :: 0 <= i < k ==>
      RegisteredAt(registry, holder, t, i)
      && AllReadableAt(registry, load, holder, before, objects, t, i)
  }

  lemma {:induction false} ProgressStep(registry: Registry, load: Loader, holder: string, before: seq<Object>,
      mid: seq<Object>, after: seq<Object>, objects: seq<nat>, t: Tree, k: nat, n: int)
    requires Within(objects, before) && AllPlain(objects, before) && k < |t.entries|
    requires Progress(registry, load, holder, before, mid, objects, t, k, n)
    requires Expanded(registry, load, holder, before, after, objects, t, k + 1)
    requires RegisteredAt(registry, holder, t, k) && AllReadableAt(registry, load, holder, before, objects, t, k)
    ensures Progress(registry, load, holder, before, after, objects, t, k + 1, n + 1 + Calls(t.entries[k].subtree))
  {
  }

  lemma {:induction false} ProgressEnds(registry: Registry, load: Loader, holder: string, before: seq<Object>,
      after: seq<Object>, objects: seq<nat>, t: Tree, n: int)
    requires Within(objects, before) && AllPlain(objects, before)
    requires Progress(registry, load, holder, before, after, objects, t, |t.entries|, n)
    ensures Registered(registry, holder, t) && AllReadable(registry, load, holder, before, objects, t) && n == Calls(t)
    ensures Ordered(after) && Confined(before, after, objects)
    ensures ShowAlone(registry, load, holder, before, after, objects, t)
  {
    ReadableEverywhere(registry, load, holder, before, objects, t);
    ExpandedShows(registry, load, holder, before, after, objects, t);
  }

  lemma {:induction false} ProgressFails(registry: Registry, load: Loader, holder: string, before: seq<Object>,
      objects: seq<nat>, t: Tree, k: nat)
    requires Within(objects, before) && k < |t.entries|
    ensures !RegisteredAt(registry, holder, t, k) ==> !Registered(registry, holder, t)
    ensures !AllReadableAt(registry, load, holder, before, objects, t, k)
      ==> !AllReadable(registry, load, holder, before, objects, t)
  {
    ReadableEverywhere(registry, load, holder, before, objects, t);
  }

  class Expander {
    const registry: Registry
    const load: Loader
    var heap: seq<Object>
    var calls: nat

    constructor (registry: Registry, load: Loader, heap: seq<Object>)
      ensures this.registry == registry && this.load == load && this.heap == heap && calls == 0
    {
      this.registry, this.load, this.heap, this.calls := registry, load, heap, 0;
    }

    /** The distinct ids the holders name under a field. */
    method Ids(objects: seq<nat>, field: string) returns (ids: seq<string>)
      requires Within(objects, heap)
      ensures forall id :: id in ids <==> NamedBy(heap, objects, field, id)
      ensures forall i, j :: 0 <= i < j < |ids| ==> ids[i] != ids[j]
    {
      ids := [];
      for j := 0 to |objects|
        invariant forall id :: id in ids <==> NamedBy(heap, objects[..j], field, id)
        invariant forall i, k :: 0 <= i < k < |ids| ==> ids[i] != ids[k]
      {
        assert objects[j] in objects;
        var o := heap[objects[j]];
        assert objects[..j + 1] == objects[..j] + [objects[j]];
        forall id ensures NamedBy(heap, objects[..j + 1], field, id) <==>
            NamedBy(heap, objects[..j], field, id) || Names(heap, objects[j], field, id)
        {
          NamedBySnoc(heap, objects[..j], objects[j], field, id);
        }
        if field in o && o[field].Held? && o[field].scalar.Text? && o[field].scalar.id !in ids {
          ids := ids + [o[field].scalar.id];
        }
      }
      assert objects[..|objects|] == objects;
    }

    method LoadAll(target: string, ids: seq<string>) returns (loaded: map<string, nat>)
      modifies this
      ensures Loaded(load, target, old(heap), heap, ids, loaded) && calls == old(calls) + 1
    {
      calls := calls + 1;
      loaded := map[];
      for j := 0 to |ids|
        invariant Loaded(load, target, old(heap), heap, ids[..j], loaded) && calls == old(calls) + 1
      {
        assert ids[..j + 1] == ids[..j] + [ids[j]];
        var row := load(target, ids[j]);
        if row.Some? {
          loaded := loaded[ids[j] := |heap|];
          heap := heap + [Fresh(row.value)];
        }
      }
      assert ids[..|ids|] == ids;
    }

    /** Replace every id under the field by its object; stop at one that was not read. */
    method Assign(objects: seq<nat>, field: string, loaded: map<string, nat>) returns (ok: bool, produced: seq<nat>)
      requires Within(objects, heap)
      modifies this`heap
      ensures ok <==> AllLoaded(old(heap), objects, field, loaded)
      ensures ok ==> Linked(old(heap), heap, objects, field, loaded)
      ensures ok ==> forall q :: q in produced <==> Produced(old(heap), objects, field, loaded, q)
    {
      produced := [];
      for j := 0 to |objects|
        invariant Within(objects, heap) && Linked(old(heap), heap, objects[..j], field, loaded)
        invariant AllLoaded(old(heap), objects[..j], field, loaded)
        invariant forall q :: q in produced <==> Produced(old(heap), objects[..j], field, loaded, q)
      {
        var r := objects[j];
        assert r in objects;
        assert objects[..j + 1] == objects[..j] + [r];
        var o := heap[r];
        if field in o && o[field].Held? && o[field].scalar.Text? {
          var id := o[field].scalar.id;
          assert Names(old(heap), r, field, id);
          if id !in loaded {
            return false, produced;
          }
          heap := heap[r := o[field := Pointer(loaded[id])]];
          produced := produced + [loaded[id]];
        }
      }
      assert objects[..|objects|] == objects;
      ok := true;
    }

    /** One turn of the loop: the field is read, its holders are linked, and what they hold is expanded. */
    method ExpandField(objects: seq<nat>, holder: string, t: Tree, k: nat, ghost h0: seq<Object>)
        returns (outcome: Outcome)
      requires k < |t.entries| && Distinct(t) && Within(objects, h0) && AllPlain(objects, h0)
      requires Expanded(registry, load, holder, h0, heap, objects, t, k)
      modifies this
      ensures outcome.Done? <==>
        RegisteredAt(registry, holder, t, k)
        && AllReadableAt(registry, load, holder, h0, objects, t, k)
      ensures outcome.NotRegistered? ==> !RegisteredAt(registry, holder, t, k)
      ensures outcome.Done? ==> Expanded(registry, load, holder, h0, heap, objects, t, k + 1)
      ensures outcome.Done? ==> calls == old(calls) + 1 + Calls(t.entries[k].subtree)
      decreases t, 0
    {
      var field, subtree := t.entries[k].field, t.entries[k].subtree;
      if field !in registry(holder) {
        return NotRegistered;
      }
      var target := registry(holder)[field];
      var ids := Ids(objects, field);
      var loaded := LoadAll(target, ids);
      ghost var l := Level(registry, load, holder, t, k, objects, h0, old(heap), heap, ids, loaded);
      assert l.Valid();
      var ok, produced := Assign(objects, field, loaded);
      if !ok {
        LevelUnreadable(l);
        return NotReadable;
      }
      ghost var h2 := heap;
      CanDescend(l, h2, produced);
      LevelReadable(l, h2, produced);
      if subtree.entries != [] {
        outcome := Expand(produced, target, subtree);
      } else {
        NothingToExpand(registry, load, target, h2, produced, subtree);
        outcome := Done;
      }
      if outcome.Done? {
        ExpandStep(l, h2, produced, heap);
      }
    }

    /**
     Whatever objects the holders share, the expansion of a batch succeeds exactly
     when the tree is registered and each object alone is readable; then each shows
     what it shows alone, nothing else changed, and there was one read for every
     field of the tree.
     */
    method Expand(objects: seq<nat>, holder: string, t: Tree) returns (outcome: Outcome)
      requires Ordered(heap) && Within(objects, heap) && AllPlain(objects, heap) && Distinct(t)
      modifies this
      ensures outcome.Done? <==>
        Registered(registry, holder, t)
        && AllReadable(registry, load, holder, old(heap), objects, t)
      ensures outcome.NotRegistered? ==> !Registered(registry, holder, t)
      ensures outcome.Done? ==> Ordered(heap) && Confined(old(heap), heap, objects)
      ensures outcome.Done? ==> ShowAlone(registry, load, holder, old(heap), heap, objects, t)
      ensures outcome.Done? ==> calls == old(calls) + Calls(t)
      decreases t, 1
    {
      ghost var h0 := heap;
      for k := 0 to |t.entries|
        invariant Progress(registry, load, holder, h0, heap, objects, t, k, calls - old(calls))
      {
        ghost var mid, n := heap, calls - old(calls);
        outcome := ExpandField(objects, holder, t, k, h0);
        if !outcome.Done? {
          ProgressFails(registry, load, holder, h0, objects, t, k);
          return;
        }
        ProgressStep(registry, load, holder, h0, mid, heap, objects, t, k, n);
      }
      ProgressEnds(registry, load, holder, h0, heap, objects, t, calls - old(calls));
      return Done;
    }
  }
  /**
   A route's `expand[]`: paths are checked before anything is read, and a tree
   that was accepted never reaches a field that is not registered.
   */
  method ExpandResponse(expander: Expander, root: string, paths: seq<string>, list: bool, objects: seq<nat>)
    returns (error: Option<PathError>, t: Tree, outcome: Outcome)
    requires Ordered(expander.heap) && Within(objects, expander.heap) && AllPlain(objects, expander.heap)
    modifies expander
    ensures error.Some? <==> Refused(expander.registry, root, paths, list)
    ensures error.Some? ==> FirstRefused(expander.registry, root, paths, list, error.value)
    ensures error.Some? ==> expander.heap == old(expander.heap) && expander.calls == old(expander.calls)
    ensures error.None? ==> IsParsed(expander.registry, root, paths, list, t) && !outcome.NotRegistered?
    ensures error.None? ==> (outcome.Done?
      <==> AllReadable(expander.registry, expander.load, root, old(expander.heap), objects, t))
    ensures error.None? && outcome.Done? ==>
      && Ordered(expander.heap) && Confined(old(expander.heap), expander.heap, objects)
      && ShowAlone(expander.registry, expander.load, root, old(expander.heap), expander.heap, objects, t)
      && expander.calls == old(expander.calls) + Calls(t)
  {
    var trie: Trie;
    trie, error := ParseExpand(expander.registry, root, paths, list);
    t, outcome := trie.Value(), Done;
    if error.None? {
      FittingTree(expander.registry, root, t, MAX_DEPTH);
      outcome := expander.Expand(objects, root, t);
    }
  }
}
