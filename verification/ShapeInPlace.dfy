/** Shape as it runs: maps are shared by reference, deepMerge writes into them,
    and a projection aliases parts of the response it was taken from. */
module ShapeInPlace {
  import opened Strings
  import opened ResponseShape

  /** A Go map[string]interface{}. */
  class GoMap {
    var m: map<string, Val>
    constructor () ensures m == map[] { m := map[]; }
  }

  datatype Val = VNull | VScalar(text: string) | VSlice(items: seq<Val>) | VMap(o: GoMap)

  // ----- the response as a tree of maps

  datatype Tree = TNull | TScalar(text: string) | TArr(items: seq<Tree>) | TObj(o: GoMap, kids: map<string, Tree>)

  ghost function Den(t: Tree): Json {
    match t
    case TNull => Null
    case TScalar(s) => Scalar(s)
    case TArr(items) => Arr(seq(|items|, i requires 0 <= i < |items| => Den(items[i])))
    case TObj(_, kids) => Obj(map k | k in kids :: Den(kids[k]))
  }

  ghost function Ref(t: Tree): Val {
    match t
    case TNull => VNull
    case TScalar(s) => VScalar(s)
    case TArr(items) => VSlice(seq(|items|, i requires 0 <= i < |items| => Ref(items[i])))
    case TObj(o, _) => VMap(o)
  }

  ghost function Objs(t: Tree): set<GoMap> {
    match t
    case TNull => {}
    case TScalar(_) => {}
    case TArr(items) => set i, x | 0 <= i < |items| && x in Objs(items[i]) :: x
    case TObj(o, kids) => {o} + set k, x | k in kids && x in Objs(kids[k]) :: x
  }

  /** The heap contains the tree. */
  ghost predicate Holds(t: Tree)
    reads Objs(t)
  {
    match t
    case TNull => true
    case TScalar(_) => true
    case TArr(items) => forall i :: 0 <= i < |items| ==> Holds(items[i])
    case TObj(o, kids) => o.m == (map k | k in kids :: Ref(kids[k])) && forall k :: k in kids ==> Holds(kids[k])
  }

  // ----- partial copies of the response

  /** A value built by Shape: some of it aliases the response (Whole), some of it
      lives in maps of its own (Fresh). A Hole is a nil array element. */
  datatype Piece = Whole(t: Tree) | Hole | Slice(items: seq<Piece>) | Fresh(o: GoMap, kids: map<string, Piece>)

  ghost function PDen(p: Piece): Json {
    match p
    case Whole(t) => Den(t)
    case Hole => Null
    case Slice(items) => Arr(seq(|items|, i requires 0 <= i < |items| => PDen(items[i])))
    case Fresh(_, kids) => Obj(map k | k in kids :: PDen(kids[k]))
  }

  ghost function PRef(p: Piece): Val {
    match p
    case Whole(t) => Ref(t)
    case Hole => VNull
    case Slice(items) => VSlice(seq(|items|, i requires 0 <= i < |items| => PRef(items[i])))
    case Fresh(o, _) => VMap(o)
  }

  ghost function Own(p: Piece): set<GoMap> {
    match p
    case Whole(_) => {}
    case Hole => {}
    case Slice(items) => set i, x | 0 <= i < |items| && x in Own(items[i]) :: x
    case Fresh(o, kids) => {o} + set k, x | k in kids && x in Own(kids[k]) :: x
  }

  ghost predicate Sound(p: Piece)
    reads Own(p)
  {
    match p
    case Whole(_) => true
    case Hole => true
    case Slice(items) => forall i :: 0 <= i < |items| ==> Sound(items[i])
    case Fresh(o, kids) => o.m == (map k | k in kids :: PRef(kids[k])) && forall k :: k in kids ==> Sound(kids[k])
  }

  /** No own map occurs twice. */
  ghost predicate Apart(p: Piece) {
    match p
    case Whole(_) => true
    case Hole => true
    case Slice(items) =>
      && (forall i :: 0 <= i < |items| ==> Apart(items[i]))
      && forall i, j :: 0 <= i < j < |items| ==> Own(items[i]) !! Own(items[j])
    case Fresh(o, kids) =>
      && (forall k :: k in kids ==> Apart(kids[k]) && o !in Own(kids[k]))
      && forall k, l :: k in kids && l in kids && k != l ==> Own(kids[k]) !! Own(kids[l])
  }

  /** p is a partial copy of t. */
  ghost predicate Fits(p: Piece, t: Tree) {
    match p
    case Whole(s) => s == t
    case Hole => false
    case Slice(items) =>
      && t.TArr? && |items| == |t.items|
      && forall i :: 0 <= i < |items| ==> items[i].Hole? || Fits(items[i], t.items[i])
    case Fresh(_, kids) =>
      && t.TObj? && forall k :: k in kids ==> k in t.kids && Fits(kids[k], t.kids[k])
  }

  lemma {:induction false} FitsIsPart(p: Piece, t: Tree)
    requires Fits(p, t)
    ensures Part(PDen(p), Den(t))
  {
    match p
    case Whole(_) => PartReflexive(Den(t));
    case Slice(items) =>
      forall i | 0 <= i < |items| && !items[i].Hole? ensures Part(PDen(items[i]), Den(t.items[i])) {
        FitsIsPart(items[i], t.items[i]);
      }
    case Fresh(_, kids) =>
      forall k | k in kids ensures Part(PDen(kids[k]), Den(t.kids[k])) { FitsIsPart(kids[k], t.kids[k]); }
  }

  // ----- pieces seen as maps or arrays, whether aliased or own

  ghost predicate MapLike(p: Piece) { p.Fresh? || (p.Whole? && p.t.TObj?) }

  ghost predicate ArrayLike(p: Piece) { p.Slice? || (p.Whole? && p.t.TArr?) }

  ghost function KidKeys(p: Piece): set<string>
    requires MapLike(p)
  {
    if p.Fresh? then p.kids.Keys else p.t.kids.Keys
  }

  ghost function Kid(p: Piece, k: string): Piece
    requires MapLike(p) && k in KidKeys(p)
  {
    if p.Fresh? then p.kids[k] else Whole(p.t.kids[k])
  }

  ghost function Length(p: Piece): nat
    requires ArrayLike(p)
  {
    if p.Slice? then |p.items| else |p.t.items|
  }

  ghost function Elem(p: Piece, i: nat): Piece
    requires ArrayLike(p) && i < Length(p)
  {
    if p.Slice? then p.items[i] else Whole(p.t.items[i])
  }

  lemma FitsLikeTree(p: Piece, t: Tree)
    requires Fits(p, t)
    ensures t.TObj? ==> MapLike(p) && forall k :: k in KidKeys(p) ==> k in t.kids && Fits(Kid(p, k), t.kids[k])
    ensures t.TArr? ==> ArrayLike(p) && Length(p) == |t.items|
    ensures t.TArr? ==> forall i :: 0 <= i < Length(p) ==> Elem(p, i).Hole? || Fits(Elem(p, i), t.items[i])
  {
  }

  /** Own maps of the kids of p lie within those of p and, if p is apart, are
      apart and distinct from p's own. */
  lemma OwnOfKids(p: Piece)
    requires MapLike(p)
    ensures forall k :: k in KidKeys(p) ==> Own(Kid(p, k)) <= Own(p)
    ensures Apart(p) ==> forall k :: k in KidKeys(p) ==> Apart(Kid(p, k))
    ensures Apart(p) ==> forall k, l :: k in KidKeys(p) && l in KidKeys(p) && k != l ==>
      Own(Kid(p, k)) !! Own(Kid(p, l))
  {
  }

  lemma OwnOfElems(p: Piece)
    requires ArrayLike(p)
    ensures forall i :: 0 <= i < Length(p) ==> Own(Elem(p, i)) <= Own(p)
    ensures Apart(p) ==> forall i :: 0 <= i < Length(p) ==> Apart(Elem(p, i))
    ensures Apart(p) ==> forall i, j :: 0 <= i < j < Length(p) ==> Own(Elem(p, i)) !! Own(Elem(p, j))
  {
  }

  // ----- what a merge leaves behind

  /** p after q has been merged into it: an aliased map stays as it is, an own
      map takes over what it lacks. */
  ghost function MergeP(p: Piece, q: Piece): Piece
    decreases p, 1
  {
    if p.Fresh? && MapLike(q) then MergeOn(p, q, KidKeys(q))
    else if p.Slice? && ArrayLike(q) && Length(q) == |p.items| then
      Slice(seq(|p.items|, i requires 0 <= i < |p.items| => MergeElem(p.items[i], Elem(q, i))))
    else p
  }

  /** The same when only the keys in `done` have been merged so far. */
  ghost function MergeOn(p: Piece, q: Piece, done: set<string>): Piece
    requires p.Fresh? && MapLike(q) && done <= KidKeys(q)
    decreases p, 0
  {
    Fresh(p.o, map k | k in p.kids.Keys + done ::
      if k !in done then p.kids[k] else if k in p.kids then MergeP(p.kids[k], Kid(q, k)) else Kid(q, k))
  }

  ghost function MergeElem(p: Piece, q: Piece): Piece
    decreases p, 2
  {
    if PRef(p).VNull? then q else if PRef(q).VNull? then p else MergeP(p, q)
  }

  lemma {:induction false} MergeMeans(p: Piece, q: Piece, t: Tree)
    requires Fits(p, t) && Fits(q, t)
    ensures Fits(MergeP(p, q), t) && PDen(MergeP(p, q)) == Merge(PDen(p), PDen(q))
    decreases p, 1
  {
    if p.Whole? {
      FitsIsPart(q, t);
      MergeIntoSource(Den(t), PDen(q));
    } else if p.Slice? {
      FitsLikeTree(q, t);
      MergeSliceMeans(p, q, t);
    } else {
      FitsLikeTree(q, t);
      MergeFreshMeans(p, q, t);
    }
  }

  lemma {:induction false} MergeSliceMeans(p: Piece, q: Piece, t: Tree)
    requires p.Slice? && ArrayLike(q) && Fits(p, t) && Fits(q, t)
    ensures Fits(MergeP(p, q), t) && PDen(MergeP(p, q)) == Merge(PDen(p), PDen(q))
    decreases p, 0
  {
    var r := MergeP(p, q);
    FitsLikeTree(q, t);
    forall i | 0 <= i < |p.items|
      ensures r.items[i].Hole? || Fits(r.items[i], t.items[i])
      ensures PDen(r.items[i]) == MergeItem(PDen(p.items[i]), PDen(Elem(q, i)))
    {
      MergeElemMeans(p.items[i], Elem(q, i), t.items[i]);
      assert r.items[i] == MergeElem(p.items[i], Elem(q, i));
    }
    hide Fits, Merge, MergeP, MergeItem;
    ElemsDen(q);
    MergeByItem(PDen(p), PDen(q), PDen(r));
  }

  ghost function MergeItem(a: Json, b: Json): Json {
    if a.Null? then b else if b.Null? then a else Merge(a, b)
  }

  lemma MergeByItem(a: Json, b: Json, r: Json)
    requires a.Arr? && b.Arr? && r.Arr? && |a.items| == |b.items| == |r.items|
    requires forall i :: 0 <= i < |r.items| ==> r.items[i] == MergeItem(a.items[i], b.items[i])
    ensures r == Merge(a, b)
  {
  }

  lemma ElemsDen(q: Piece)
    requires ArrayLike(q)
    ensures PDen(q).Arr? && |PDen(q).items| == Length(q)
    ensures forall i :: 0 <= i < Length(q) ==> PDen(q).items[i] == PDen(Elem(q, i))
  {
  }

  lemma {:induction false} MergeElemMeans(p: Piece, q: Piece, t: Tree)
    requires (p.Hole? || Fits(p, t)) && (q.Hole? || Fits(q, t))
    ensures MergeElem(p, q).Hole? || Fits(MergeElem(p, q), t)
    ensures PDen(MergeElem(p, q)) == MergeItem(PDen(p), PDen(q))
    decreases p, 2
  {
    NullWhenNil(p);
    NullWhenNil(q);
    if !PRef(p).VNull? && !PRef(q).VNull? { MergeMeans(p, q, t); }
  }

  /** What Merge does with the value at key k of two objects. */
  ghost predicate MergedAt(a: Json, b: Json, r: Json, k: string)
    requires a.Obj? && b.Obj? && r.Obj?
  {
    if k in a.fields && k in b.fields then k in r.fields && r.fields[k] == Merge(a.fields[k], b.fields[k])
    else if k in a.fields then k in r.fields && r.fields[k] == a.fields[k]
    else if k in b.fields then k in r.fields && r.fields[k] == b.fields[k]
    else k !in r.fields
  }

  lemma MergeByKey(a: Json, b: Json, r: Json)
    requires a.Obj? && b.Obj? && r.Obj? && forall k :: MergedAt(a, b, r, k)
    ensures r == Merge(a, b)
  {
    forall k ensures k in r.fields <==> k in Merge(a, b).fields { assert MergedAt(a, b, r, k); }
    forall k | k in r.fields ensures r.fields[k] == Merge(a, b).fields[k] { assert MergedAt(a, b, r, k); }
    assert r.fields == Merge(a, b).fields;
  }

  lemma KidsDen(q: Piece)
    requires MapLike(q)
    ensures PDen(q).Obj? && PDen(q).fields.Keys == KidKeys(q)
    ensures forall k :: k in KidKeys(q) ==> PDen(q).fields[k] == PDen(Kid(q, k))
  {
  }

  lemma {:induction false} MergeFreshMeans(p: Piece, q: Piece, t: Tree)
    requires p.Fresh? && MapLike(q) && Fits(p, t) && Fits(q, t)
    ensures Fits(MergeP(p, q), t) && PDen(MergeP(p, q)) == Merge(PDen(p), PDen(q))
    decreases p, 0
  {
    var r := MergeOn(p, q, KidKeys(q));
    assert MergeP(p, q) == r;
    FitsLikeTree(q, t);
    forall k | k in r.kids ensures k in t.kids && Fits(r.kids[k], t.kids[k]) {
      if k in p.kids && k in KidKeys(q) { MergeMeans(p.kids[k], Kid(q, k), t.kids[k]); }
    }
    KidsDen(p);
    KidsDen(q);
    KidsDen(r);
    forall k ensures MergedAt(PDen(p), PDen(q), PDen(r), k) {
      if k in p.kids && k in KidKeys(q) { MergeMeans(p.kids[k], Kid(q, k), t.kids[k]); }
      hide Merge, PDen, Fits;
    }
    hide *;
    MergeByKey(PDen(p), PDen(q), PDen(r));
  }

  lemma NullWhenNil(p: Piece)
    ensures PRef(p).VNull? <==> PDen(p).Null?
  {
  }

  lemma {:induction false} MergeStaysApart(p: Piece, q: Piece, t: Tree)
    requires Fits(p, t) && Fits(q, t) && Apart(p) && Apart(q) && Own(p) !! Own(q)
    ensures Own(MergeP(p, q)) <= Own(p) + Own(q) && Apart(MergeP(p, q))
    decreases p
  {
    match p
    case Whole(_) =>
    case Slice(items) =>
      FitsLikeTree(q, t);
      OwnOfElems(p);
      OwnOfElems(q);
      var r := MergeP(p, q);
      forall i | 0 <= i < |items| ensures Own(r.items[i]) <= Own(items[i]) + Own(Elem(q, i)) && Apart(r.items[i]) {
        assert r.items[i] == MergeElem(items[i], Elem(q, i));
        if !PRef(items[i]).VNull? && !PRef(Elem(q, i)).VNull? { MergeStaysApart(items[i], Elem(q, i), t.items[i]); }
      }
    case Fresh(_, kids) =>
      FitsLikeTree(q, t);
      MergeOnStaysApart(p, q, t, KidKeys(q));
  }

  lemma {:induction false} MergeOnStaysApart(p: Piece, q: Piece, t: Tree, done: set<string>)
    requires p.Fresh? && MapLike(q) && Fits(p, t) && Fits(q, t) && Apart(p) && Apart(q) && Own(p) !! Own(q) &&
      done <= KidKeys(q)
    ensures Own(MergeOn(p, q, done)) <= Own(p) + Own(q) && Apart(MergeOn(p, q, done))
    decreases p, 0
  {
    OwnOfKids(p);
    OwnOfKids(q);
    FitsLikeTree(q, t);
    var r := MergeOn(p, q, done);
    forall k | k in r.kids
      ensures Own(r.kids[k]) <= (if k in p.kids then Own(p.kids[k]) else {}) +
        (if k in done then Own(Kid(q, k)) else {})
      ensures Apart(r.kids[k])
    {
      if k in done && k in p.kids { MergeStaysApart(p.kids[k], Kid(q, k), t.kids[k]); }
    }
  }

  // ----- the merge itself

  /** p and q are partial copies of the response t that share no map of their own. */
  ghost predicate Ready(p: Piece, q: Piece, t: Tree)
    reads Own(p), Own(q), Objs(t)
  {
    && Fits(p, t) && Fits(q, t) && Sound(p) && Sound(q) && Holds(t) && Apart(p) && Apart(q)
    && Own(p) !! Own(q) && Own(p) !! Objs(t) && Own(q) !! Objs(t)
  }

  /** The contents an object should have to stand for p. */
  ghost function MapOf(p: Piece): map<string, Val>
    requires MapLike(p)
  {
    map k | k in KidKeys(p) :: PRef(Kid(p, k))
  }

  /** p once the keys in `done` of q are merged into it. */
  ghost function Partly(p: Piece, q: Piece, done: set<string>): (r: Piece)
    requires MapLike(p) && MapLike(q) && done <= KidKeys(q)
    ensures MapLike(r)
  {
    if p.Fresh? then MergeOn(p, q, done) else p
  }

  /** The pure part of Ready. */
  ghost predicate Separate(p: Piece, q: Piece, t: Tree) {
    && Fits(p, t) && Fits(q, t) && Apart(p) && Apart(q)
    && Own(p) !! Own(q) && Own(p) !! Objs(t) && Own(q) !! Objs(t)
  }

  lemma PartlyStart(p: Piece, q: Piece)
    requires MapLike(p) && MapLike(q)
    ensures Partly(p, q, {}) == p
  {
  }

  lemma PartlyAll(p: Piece, q: Piece)
    requires MapLike(p) && MapLike(q)
    ensures Partly(p, q, KidKeys(q)) == MergeP(p, q)
  {
  }

  lemma PartlyNext(p: Piece, q: Piece, t: Tree, done: set<string>, k: string)
    requires Separate(p, q, t) && MapLike(p) && MapLike(q) && done <= KidKeys(q) && k in KidKeys(q) && k !in done
    ensures KidKeys(Partly(p, q, done + {k})) == KidKeys(Partly(p, q, done)) + {k}
    ensures forall l :: l in KidKeys(Partly(p, q, done)) && l != k ==>
      Kid(Partly(p, q, done + {k}), l) == Kid(Partly(p, q, done), l)
    ensures k in KidKeys(Partly(p, q, done)) <==> k in KidKeys(p)
    ensures k in KidKeys(p) ==> Kid(Partly(p, q, done), k) == Kid(p, k)
    ensures Kid(Partly(p, q, done + {k}), k) == if k in KidKeys(p) then MergeP(Kid(p, k), Kid(q, k)) else Kid(q, k)
  {
    hide Apart, Own, Objs, PRef;
    FitsLikeTree(q, t);
  }

  lemma PartlyMap(p: Piece, q: Piece, t: Tree, done: set<string>, k: string)
    requires Separate(p, q, t) && MapLike(p) && MapLike(q) && done <= KidKeys(q) && k in KidKeys(q) && k !in done
    ensures MapOf(Partly(p, q, done + {k})) == MapOf(Partly(p, q, done))[k := PRef(Kid(Partly(p, q, done + {k}), k))]
  {
    hide Apart, Own, Objs, PRef, Partly, MergeP, Fits, Kid, KidKeys, MapLike;
    PartlyNext(p, q, t, done, k);
  }

  lemma ReadyKid(p: Piece, q: Piece, t: Tree, k: string)
    requires Separate(p, q, t) && MapLike(p) && MapLike(q) && k in KidKeys(p) && k in KidKeys(q)
    requires Sound(Kid(p, k)) && Sound(q) && Holds(t)
    ensures t.TObj? && k in t.kids && Ready(Kid(p, k), Kid(q, k), t.kids[k])
    ensures Own(Kid(p, k)) <= Own(p) && Own(Kid(q, k)) <= Own(q) && Objs(t.kids[k]) <= Objs(t)
  {
    hide PRef, Den, Ref;
    FitsLikeTree(p, t);
    FitsLikeTree(q, t);
    OwnOfKids(p);
    OwnOfKids(q);
    SubtreeObjs(t);
  }

  /** What the merge at key k writes is not part of the other kids. */
  lemma OtherKidsApart(p: Piece, q: Piece, t: Tree, done: set<string>, k: string, l: string)
    requires Separate(p, q, t) && p.Fresh? && MapLike(q) && done <= KidKeys(q) && k !in done && k != l
    requires l in KidKeys(Partly(p, q, done))
    ensures var c := Kid(Partly(p, q, done), l);
      && Own(c) <= Own(p) + Own(q) && p.o !in Own(c)
      && (k in p.kids ==> Own(c) !! Own(p.kids[k]))
  {
    hide PRef, Den, Ref;
    OwnOfKids(p);
    OwnOfKids(q);
    if l in done && l in p.kids {
      FitsLikeTree(q, t);
      MergeStaysApart(p.kids[l], Kid(q, l), t.kids[l]);
    }
  }

  /** The new kid does not contain the map it is stored in. */
  lemma NewKidApart(p: Piece, q: Piece, t: Tree, k: string)
    requires Separate(p, q, t) && p.Fresh? && MapLike(q) && k in KidKeys(q)
    ensures var c := if k in p.kids then MergeP(p.kids[k], Kid(q, k)) else Kid(q, k);
      Own(c) <= Own(p) + Own(q) && p.o !in Own(c)
    ensures k in p.kids ==> p.o !in Own(p.kids[k])
  {
    hide PRef, Den, Ref;
    OwnOfKids(p);
    OwnOfKids(q);
    if k in p.kids {
      FitsLikeTree(q, t);
      MergeStaysApart(p.kids[k], Kid(q, k), t.kids[k]);
    }
  }

  lemma SoundKids(p: Piece)
    requires p.Fresh?
    ensures Sound(p) <==> p.o.m == MapOf(p) && forall k :: k in p.kids ==> Sound(p.kids[k])
  {
  }

  lemma MapKeys(p: Piece)
    requires MapLike(p)
    ensures MapOf(p).Keys == KidKeys(p) && forall k :: k in KidKeys(p) ==> MapOf(p)[k] == PRef(Kid(p, k))
  {
  }

  /** An array element may be nil on either side. */
  ghost predicate ReadyElem(p: Piece, q: Piece, t: Tree)
    reads Own(p), Own(q), Objs(t)
  {
    && (p.Hole? || Fits(p, t)) && (q.Hole? || Fits(q, t)) && Sound(p) && Sound(q) && Holds(t) && Apart(p) && Apart(q)
    && Own(p) !! Own(q) && Own(p) !! Objs(t) && Own(q) !! Objs(t)
  }

  lemma ElemOwn(p: Piece, q: Piece, t: Tree)
    requires (p.Hole? || Fits(p, t)) && (q.Hole? || Fits(q, t)) && Apart(p) && Apart(q) && Own(p) !! Own(q)
    ensures Own(MergeElem(p, q)) <= Own(p) + Own(q)
  {
    if !PRef(p).VNull? && !PRef(q).VNull? { MergeStaysApart(p, q, t); }
  }

  lemma SubtreeObjs(t: Tree)
    ensures t.TArr? ==> forall i :: 0 <= i < |t.items| ==> Objs(t.items[i]) <= Objs(t)
    ensures t.TObj? ==> t.o in Objs(t) && forall k :: k in t.kids ==> Objs(t.kids[k]) <= Objs(t)
  {
  }

  // In the methods below R is any set that holds the maps at hand. Passing it in makes
  // them known as allocated, which `unchanged` and `old` ask for.

  method MergeValues(a: Val, b: Val, ghost p: Piece, ghost q: Piece, ghost t: Tree, ghost R: set<GoMap>)
      returns (r: Val)
    requires a == PRef(p) && b == PRef(q) && Ready(p, q, t)
    requires Own(p) + Own(q) + Objs(t) <= R
    modifies Own(p), Objs(t)
    ensures r == PRef(MergeP(p, q)) && Sound(MergeP(p, q))
    ensures unchanged(Objs(t))
    decreases t, 2
  {
    FitsLikeTree(p, t);
    FitsLikeTree(q, t);
    if a.VMap? && b.VMap? {
      DeepMerge(a.o, b.o, p, q, t, R);
      return a;
    }
    if a.VSlice? && b.VSlice? {
      r := MergeSlices(a.items, b.items, p, q, t, R);
      return;
    }
    return if b != VNull then b else a;
  }

  /** One element of two index-aligned arrays. */
  method MergeItems(ai: Val, bi: Val, ghost p: Piece, ghost q: Piece, ghost t: Tree, ghost R: set<GoMap>)
      returns (r: Val)
    requires ai == PRef(p) && bi == PRef(q) && ReadyElem(p, q, t)
    requires Own(p) + Own(q) + Objs(t) <= R
    modifies Own(p), Objs(t)
    ensures r == PRef(MergeElem(p, q)) && Sound(MergeElem(p, q))
    ensures unchanged(Objs(t))
    decreases t, 3
  {
    if ai == VNull {
      r := bi;
    } else if bi == VNull {
      r := ai;
    } else {
      r := MergeValues(ai, bi, p, q, t, R);
    }
  }

  lemma WholeElem(t: Tree, q: Piece)
    requires q.Hole? || Fits(q, t)
    ensures PRef(MergeElem(Whole(t), q)) == Ref(t)
  {
  }

  lemma SlicesMerged(out: seq<Val>, p: Piece, q: Piece, t: Tree)
    requires ArrayLike(p) && ArrayLike(q) && Fits(p, t) && Fits(q, t) && |out| == Length(p) == Length(q)
    requires forall j :: 0 <= j < |out| ==> out[j] == PRef(MergeElem(Elem(p, j), Elem(q, j)))
    ensures VSlice(out) == PRef(MergeP(p, q))
  {
    FitsLikeTree(q, t);
    if p.Whole? {
      forall j | 0 <= j < |out| ensures out[j] == Ref(t.items[j]) { WholeElem(t.items[j], Elem(q, j)); }
    }
  }

  /** The array p once its first i elements have been merged with those of q. */
  ghost function SlicePartly(p: Piece, q: Piece, i: nat): (c: seq<Piece>)
    requires ArrayLike(p) && ArrayLike(q) && Length(p) == Length(q)
    ensures |c| == Length(p)
    ensures forall j :: 0 <= j < |c| ==> c[j] == if j < i then MergeElem(Elem(p, j), Elem(q, j)) else Elem(p, j)
  {
    seq(Length(p), j requires 0 <= j < Length(p) => if j < i then MergeElem(Elem(p, j), Elem(q, j)) else Elem(p, j))
  }

  /** What the loop over two arrays needs to know about their elements. */
  ghost predicate ElemsApart(p: Piece, q: Piece, t: Tree)
    requires ArrayLike(p) && ArrayLike(q)
  {
    && t.TArr? && Length(p) == Length(q) == |t.items|
    && (forall j :: 0 <= j < Length(p) ==>
      && (Elem(p, j).Hole? || Fits(Elem(p, j), t.items[j])) && (Elem(q, j).Hole? || Fits(Elem(q, j), t.items[j]))
      && Apart(Elem(p, j)) && Apart(Elem(q, j)) && Own(Elem(p, j)) <= Own(p) && Own(Elem(q, j)) <= Own(q)
      && Objs(t.items[j]) <= Objs(t)
      && Own(MergeElem(Elem(p, j), Elem(q, j))) <= Own(Elem(p, j)) + Own(Elem(q, j)))
    && (forall i, j :: 0 <= i < j < Length(p) ==> Own(Elem(p, i)) !! Own(Elem(p, j)))
    && Own(p) !! Own(q) && Own(p) !! Objs(t) && Own(q) !! Objs(t)
  }

  lemma ReadySlices(p: Piece, q: Piece, t: Tree)
    requires ArrayLike(p) && ArrayLike(q) && Ready(p, q, t)
    ensures ElemsApart(p, q, t) && t.TArr? && Length(p) == Length(q) == |t.items|
    ensures Sound(Slice(SlicePartly(p, q, 0)))
    ensures Fits(p, t) && Fits(q, t) && Holds(t) && Sound(q) && Own(p) !! Own(q) && Own(q) !! Objs(t)
  {
    FitsLikeTree(p, t);
    FitsLikeTree(q, t);
    OwnOfElems(p);
    OwnOfElems(q);
    SubtreeObjs(t);
    forall j | 0 <= j < Length(p) ensures Own(MergeElem(Elem(p, j), Elem(q, j))) <= Own(Elem(p, j)) + Own(Elem(q, j)) {
      ElemOwn(Elem(p, j), Elem(q, j), t.items[j]);
    }
  }

  lemma ReadyElemAt(p: Piece, q: Piece, t: Tree, i: nat)
    requires ArrayLike(p) && ArrayLike(q) && ElemsApart(p, q, t) && i < Length(p)
    requires Sound(Elem(p, i)) && Sound(q) && Holds(t)
    ensures ReadyElem(Elem(p, i), Elem(q, i), t.items[i])
  {
  }

  lemma SoundSlices(p: Piece, q: Piece)
    requires ArrayLike(p) && ArrayLike(q) && Length(p) == Length(q)
    requires Sound(Slice(SlicePartly(p, q, Length(p))))
    ensures Sound(MergeP(p, q))
  {
  }

  /** A piece that shares nothing with what the next element merge writes. */
  lemma OthersApart(p: Piece, q: Piece, t: Tree, i: nat, j: nat)
    requires ArrayLike(p) && ArrayLike(q) && ElemsApart(p, q, t) && i < Length(p) && j < Length(p) && i != j
    ensures var c := SlicePartly(p, q, i)[j];
      Own(c) <= Own(p) + Own(q) && Own(c) !! Own(Elem(p, i)) && Own(c) !! Objs(t.items[i]) &&
        c == SlicePartly(p, q, i + 1)[j]
  {
    hide Fits, Apart, Own, Objs, MergeElem, Elem;
  }

  /** The body of the loop below, for index i. */
  method MergeNext(a: seq<Val>, b: seq<Val>, i: nat, ghost p: Piece, ghost q: Piece, ghost t: Tree, ghost R: set<GoMap>)
    returns (v: Val)
    requires ArrayLike(p) && ArrayLike(q) && ElemsApart(p, q, t) && PRef(p) == VSlice(a) && PRef(q) == VSlice(b)
    requires i < Length(p) && Sound(q) && Holds(t) && Own(p) + Own(q) + Objs(t) <= R
    requires Sound(Slice(SlicePartly(p, q, i)))
    modifies Own(p), Objs(t)
    ensures v == PRef(MergeElem(Elem(p, i), Elem(q, i)))
    ensures Sound(Slice(SlicePartly(p, q, i + 1)))
    ensures unchanged(Objs(t))
    decreases t, 0
  {
    hide *;
    ElemBounds(p, q, t, i);
    SliceLength(p, a);
    SliceLength(q, b);
    ghost var now, next := SlicePartly(p, q, i), SlicePartly(p, q, i + 1);
    SoundItems(now);
    assert now[i] == Elem(p, i);
    ReadyElemAt(p, q, t, i);
    v := MergeItems(if i < |a| then a[i] else VNull, if i < |b| then b[i] else VNull,
                    Elem(p, i), Elem(q, i), t.items[i], R);
    forall j | 0 <= j < |next| ensures Sound(next[j]) {
      if j != i {
        OthersApart(p, q, t, i, j);
        assert old(Sound(now[j]));
      }
    }
    SoundItems(next);
  }

  lemma SoundItems(cs: seq<Piece>)
    ensures Sound(Slice(cs)) <==> forall j :: 0 <= j < |cs| ==> Sound(cs[j])
  {
  }

  lemma ElemBounds(p: Piece, q: Piece, t: Tree, i: nat)
    requires ArrayLike(p) && ArrayLike(q) && ElemsApart(p, q, t) && i < Length(p)
    ensures t.TArr? && Length(p) == Length(q) == |t.items|
    ensures Own(Elem(p, i)) <= Own(p) && Own(Elem(q, i)) <= Own(q) && Objs(t.items[i]) <= Objs(t)
    ensures Own(Elem(p, i)) !! Objs(t)
  {
  }

  method MergeSlices(a: seq<Val>, b: seq<Val>, ghost p: Piece, ghost q: Piece, ghost t: Tree, ghost R: set<GoMap>)
      returns (r: Val)
    requires ArrayLike(p) && ArrayLike(q) && PRef(p) == VSlice(a) && PRef(q) == VSlice(b) && Ready(p, q, t)
    requires Own(p) + Own(q) + Objs(t) <= R
    modifies Own(p), Objs(t)
    ensures r == PRef(MergeP(p, q)) && Sound(MergeP(p, q))
    ensures unchanged(Objs(t))
    decreases t, 1
  {
    hide *;
    ReadySlices(p, q, t);
    SliceLength(p, a);
    SliceLength(q, b);
    var n := if |b| > |a| then |b| else |a|;
    var out: seq<Val> := [];
    for i := 0 to n
      invariant |out| == i && forall j :: 0 <= j < i ==> out[j] == PRef(MergeElem(Elem(p, j), Elem(q, j)))
      invariant unchanged(Objs(t)) && Holds(t) && Sound(q)
      invariant Sound(Slice(SlicePartly(p, q, i)))
    {
      var v := MergeNext(a, b, i, p, q, t, R);
      out := out + [v];
      assert Holds(t) by { assert old(Holds(t)); }
      assert Sound(q) by { assert old(Sound(q)); }
    }
    r := VSlice(out);
    SlicesMerged(out, p, q, t);
    SoundSlices(p, q);
  }

  lemma SliceLength(p: Piece, a: seq<Val>)
    requires ArrayLike(p) && PRef(p) == VSlice(a)
    ensures |a| == Length(p) && forall i :: 0 <= i < |a| ==> a[i] == PRef(Elem(p, i))
  {
  }

  lemma ReadyIs(p: Piece, q: Piece, t: Tree)
    requires Ready(p, q, t) && MapLike(p) && MapLike(q)
    ensures Separate(p, q, t) && Sound(p) && Sound(q) && Holds(t)
    ensures forall o :: PRef(p) == VMap(o) ==>
      o.m == MapOf(p) && (if p.Fresh? then o == p.o else p.t == t && o in Objs(t))
    ensures forall o :: PRef(q) == VMap(o) ==> o.m == MapOf(q) && (o in Own(q) || o in Objs(t))
    ensures p.Fresh? || p.Whole?
  {
  }

  lemma KidIsSound(p: Piece, k: string)
    requires MapLike(p) && k in KidKeys(p) && Sound(p)
    ensures Sound(Kid(p, k))
  {
  }

  lemma SeparateSets(p: Piece, q: Piece, t: Tree)
    requires Separate(p, q, t)
    ensures Own(p) !! Own(q) && Own(p) !! Objs(t) && Own(q) !! Objs(t)
    ensures MapLike(p) && MapLike(q) && p.Whole? ==> KidKeys(q) <= KidKeys(p)
  {
  }

  lemma WholeStays(p: Piece, q: Piece, done: set<string>)
    requires p.Whole? && MapLike(p) && MapLike(q) && done <= KidKeys(q)
    ensures Partly(p, q, done) == p && Sound(p)
  {
  }

  lemma FreshStays(p: Piece, q: Piece, done: set<string>)
    requires p.Fresh? && MapLike(q) && done <= KidKeys(q)
    ensures MapLike(p) && Partly(p, q, done).Fresh? && Partly(p, q, done).o == p.o
    ensures Partly(p, q, done).kids.Keys == KidKeys(Partly(p, q, done)) && p.kids.Keys == KidKeys(p)
    ensures forall k :: k in Partly(p, q, done).kids ==> Partly(p, q, done).kids[k] == Kid(Partly(p, q, done), k)
    ensures forall k :: k in p.kids ==> p.kids[k] == Kid(p, k)
    ensures p.o in Own(p)
  {
  }

  /** One key of deepMerge. */
  method MergeKey(dst: GoMap, src: GoMap, k: string, ghost done: set<string>,
                  ghost p: Piece, ghost q: Piece, ghost t: Tree, ghost R: set<GoMap>)
    requires MapLike(p) && MapLike(q) && Separate(p, q, t) && Own(p) + Own(q) + Objs(t) <= R
    requires if p.Fresh? then dst == p.o else p.Whole? && dst in Objs(t)
    requires done <= KidKeys(q) && k in KidKeys(q) && k !in done
    requires Sound(Partly(p, q, done)) && Sound(q) && Holds(t)
    requires dst.m == MapOf(Partly(p, q, done)) && src.m == MapOf(q)
    modifies Own(p), Objs(t)
    ensures Sound(Partly(p, q, done + {k})) && dst.m == MapOf(Partly(p, q, done + {k}))
    ensures unchanged(Objs(t))
    decreases t, 0
  {
    hide *;
    ghost var cur, next := Partly(p, q, done), Partly(p, q, done + {k});
    PartlyNext(p, q, t, done, k);
    PartlyMap(p, q, t, done, k);
    MapKeys(cur);
    MapKeys(q);
    SeparateSets(p, q, t);
    if p.Fresh? {
      FreshStays(p, q, done);
      FreshStays(p, q, done + {k});
      NewKidApart(p, q, t, k);
      SoundKids(cur);
    } else {
      WholeStays(p, q, done);
      WholeStays(p, q, done + {k});
    }
    assert Sound(Kid(q, k)) by { KidIsSound(q, k); }
    if k in dst.m {
      assert Sound(Kid(p, k)) by { KidIsSound(cur, k); }
      ReadyKid(p, q, t, k);
      var v := MergeValues(dst.m[k], src.m[k], Kid(p, k), Kid(q, k), t.kids[k], R);
      dst.m := dst.m[k := v];
    } else {
      dst.m := dst.m[k := src.m[k]];
    }
    if p.Fresh? {
      forall l | l in next.kids ensures Sound(next.kids[l]) {
        if l != k {
          OtherKidsApart(p, q, t, done, k, l);
          assert old(Sound(cur.kids[l]));
        }
      }
      SoundKids(next);
    } else {
      WholeStays(p, q, done + {k});
    }
  }

  method DeepMerge(dst: GoMap, src: GoMap, ghost p: Piece, ghost q: Piece, ghost t: Tree, ghost R: set<GoMap>)
    requires MapLike(p) && MapLike(q) && PRef(p) == VMap(dst) && PRef(q) == VMap(src) && Ready(p, q, t)
    requires Own(p) + Own(q) + Objs(t) <= R
    modifies Own(p), Objs(t)
    ensures Sound(MergeP(p, q))
    ensures unchanged(Objs(t))
    decreases t, 1
  {
    hide *;
    ReadyIs(p, q, t);
    SeparateSets(p, q, t);
    MapKeys(q);
    PartlyStart(p, q);
    var todo := src.m.Keys;
    ghost var keys := KidKeys(q);
    assert keys - todo == {};
    while todo != {}
      invariant todo <= keys && unchanged(Objs(t)) && Holds(t) && Sound(q) && src.m == MapOf(q)
      invariant Sound(Partly(p, q, keys - todo)) && dst.m == MapOf(Partly(p, q, keys - todo))
    {
      var k :| k in todo;
      ghost var done := keys - todo;
      label before:
      MergeKey(dst, src, k, done, p, q, t, R);
      todo := todo - {k};
      assert keys - todo == done + {k};
      assert Holds(t) by { assert old@before(Holds(t)); }
      assert Sound(q) by { assert old@before(Sound(q)); }
    }
    assert keys - todo == keys;
    PartlyAll(p, q);
  }

  // ----- projection, and the whole of Shape

  /** A projection of t: what project returns, F being the maps it allocated. */
  ghost predicate Projects(v: Val, p: Piece, t: Tree, parts: seq<string>, F: set<GoMap>)
    reads F
  {
    && v == PRef(p) && Fits(p, t) && Apart(p) && Own(p) <= F && Sound(p)
    && Project(Den(t), parts) == Some(PDen(p))
  }

  /** The same for an array element, which stays nil where the path is absent. */
  ghost predicate ProjectsElem(v: Val, p: Piece, t: Tree, parts: seq<string>, F: set<GoMap>)
    reads F
  {
    if Project(Den(t), parts).Some? then Projects(v, p, t, parts, F) else v == VNull && p == Hole
  }

  lemma ElemFacts(v: Val, p: Piece, t: Tree, parts: seq<string>, F: set<GoMap>)
    requires ProjectsElem(v, p, t, parts, F)
    ensures v == PRef(p) && (p.Hole? || Fits(p, t)) && Apart(p) && Own(p) <= F && Sound(p)
    ensures PDen(p) == OrNull(Project(Den(t), parts))
  {
  }

  lemma TreeItems(t: Tree, items: seq<Val>)
    requires Ref(t) == VSlice(items)
    ensures t.TArr? && |items| == |t.items| && Den(t).Arr? && |Den(t).items| == |items|
    ensures forall i :: 0 <= i < |items| ==> items[i] == Ref(t.items[i]) && Den(t).items[i] == Den(t.items[i])
    ensures forall i :: 0 <= i < |items| ==> Objs(t.items[i]) <= Objs(t)
    ensures Holds(t) ==> forall i :: 0 <= i < |items| ==> Holds(t.items[i])
  {
  }

  /** Pieces of all elements make a piece of the array. */
  lemma SliceProjects(out: seq<Val>, ps: seq<Piece>, t: Tree, rest: seq<string>, F: set<GoMap>)
    requires t.TArr? && |out| == |ps| == |t.items| && AnyFound(Den(t).items, rest)
    requires forall j :: 0 <= j < |ps| ==> ProjectsElem(out[j], ps[j], t.items[j], rest, F)
    requires forall j, k :: 0 <= j < k < |ps| ==> Own(ps[j]) !! Own(ps[k])
    ensures Projects(VSlice(out), Slice(ps), t, [EACH] + rest, F)
  {
    forall j | 0 <= j < |ps|
      ensures out[j] == PRef(ps[j]) && (ps[j].Hole? || Fits(ps[j], t.items[j])) && Apart(ps[j]) && Own(ps[j]) <= F &&
        Sound(ps[j])
      ensures PDen(ps[j]) == OrNull(Project(Den(t.items[j]), rest))
    {
      ElemFacts(out[j], ps[j], t.items[j], rest, F);
    }
    ProjectArray(Den(t), rest);
    var p := Slice(ps);
    assert PRef(p).items == out;
    assert PDen(p).items == Project(Den(t), [EACH] + rest).value.items;
  }

  lemma ProjectArray(x: Json, rest: seq<string>)
    requires x.Arr?
    ensures Project(x, [EACH] + rest) ==
      if AnyFound(x.items, rest) then
        Some(Arr(seq(|x.items|, i requires 0 <= i < |x.items| => OrNull(Project(x.items[i], rest)))))
      else None
  {
  }

  method ProjectItems(items: seq<Val>, rest: seq<string>, ghost t: Tree, ghost R: set<GoMap>)
    returns (v: Val, found: bool, ghost p: Piece, ghost F: set<GoMap>)
    requires Ref(t) == VSlice(items) && Holds(t) && Objs(t) <= R
    ensures fresh(F)
    ensures found <==> Project(Den(t), [EACH] + rest).Some?
    ensures if found then Projects(v, p, t, [EACH] + rest, F) else v == VNull && p == Hole
    decreases rest, 1
  {
    hide *;
    TreeItems(t, items);
    ProjectArray(Den(t), rest);
    var out, any := [], |items| == 0;
    ghost var ps: seq<Piece> := [];
    F := {};
    for i := 0 to |items|
      invariant |out| == |ps| == i && fresh(F) && Holds(t)
      invariant any <==> |items| == 0 || exists j :: 0 <= j < i && Project(Den(t).items[j], rest).Some?
      invariant forall j :: 0 <= j < i ==> ProjectsElem(out[j], ps[j], t.items[j], rest, F)
      invariant forall j :: 0 <= j < i ==> Own(ps[j]) <= F
      invariant forall j, k :: 0 <= j < k < i ==> Own(ps[j]) !! Own(ps[k])
    {
      TreeItems(t, items);
      label before:
      var x, ok, q, G := ProjectVal(items[i], rest, t.items[i], R);
      assert Holds(t) by { assert old@before(Holds(t)); }
      assert ProjectsElem(x, q, t.items[i], rest, G) by { ElemProjects(x, ok, q, t.items[i], rest, G); }
      ElemFacts(x, q, t.items[i], rest, G);
      forall j | 0 <= j < i ensures ProjectsElem(out[j], ps[j], t.items[j], rest, F + G) {
        assert old@before(ProjectsElem(out[j], ps[j], t.items[j], rest, F));
        Widen(out[j], ps[j], t.items[j], rest, F, F + G);
      }
      Widen(x, q, t.items[i], rest, G, F + G);
      out, ps, F := out + [x], ps + [q], F + G;
      any := any || ok;
    }
    AnyFoundIs(Den(t).items, rest);
    if !any { return VNull, false, Hole, F; }
    SliceProjects(out, ps, t, rest, F);
    return VSlice(out), true, Slice(ps), F;
  }

  lemma AnyFoundIs(items: seq<Json>, rest: seq<string>)
    ensures AnyFound(items, rest) <==> |items| == 0 || exists j :: 0 <= j < |items| && Project(items[j], rest).Some?
  {
  }

  lemma ElemProjects(v: Val, found: bool, p: Piece, t: Tree, parts: seq<string>, F: set<GoMap>)
    requires found <==> Project(Den(t), parts).Some?
    requires if found then Projects(v, p, t, parts, F) else v == VNull && p == Hole
    ensures ProjectsElem(v, p, t, parts, F)
  {
  }

  lemma Widen(v: Val, p: Piece, t: Tree, parts: seq<string>, F: set<GoMap>, G: set<GoMap>)
    requires ProjectsElem(v, p, t, parts, F) && F <= G
    ensures ProjectsElem(v, p, t, parts, G)
  {
  }

  lemma TreeKids(t: Tree, o: GoMap)
    requires Ref(t) == VMap(o)
    ensures t.TObj? && t.o == o && Den(t).Obj? && Den(t).fields.Keys == t.kids.Keys
    ensures forall k :: k in t.kids ==> Den(t).fields[k] == Den(t.kids[k]) && Objs(t.kids[k]) <= Objs(t)
    ensures Holds(t) ==> o.m.Keys == t.kids.Keys && forall k :: k in t.kids ==>
      o.m[k] == Ref(t.kids[k]) && Holds(t.kids[k])
  {
  }

  lemma OneKey(o: GoMap, k: string, kid: Piece, t: Tree)
    requires t.TObj? && k in t.kids && Fits(kid, t.kids[k]) && Apart(kid) && o !in Own(kid)
    ensures var p := Fresh(o, map[k := kid]);
      Own(p) == {o} + Own(kid) && Fits(p, t) && Apart(p) && PDen(p) == Obj(map[k := PDen(kid)])
  {
    var p := Fresh(o, map[k := kid]);
    assert p.kids[k] == kid && p.kids.Keys == {k};
    assert forall x :: x in Own(p) <==> x == o || x in Own(kid);
  }

  lemma OneKeySound(o: GoMap, k: string, kid: Piece)
    requires o.m == map[k := PRef(kid)] && Sound(kid)
    ensures Sound(Fresh(o, map[k := kid]))
  {
  }

  lemma ProjectKey(t: Tree, parts: seq<string>, below: Json)
    requires t.TObj? && parts != [] && parts[0] != EACH && parts[0] in t.kids
    requires Project(Den(t.kids[parts[0]]), parts[1..]) == Some(below)
    ensures Project(Den(t), parts) == Some(Obj(map[parts[0] := below]))
  {
  }

  lemma KeyProjects(t: Tree, parts: seq<string>, o: GoMap, child: Val, kid: Piece, G: set<GoMap>)
    requires t.TObj? && parts != [] && parts[0] != EACH && parts[0] in t.kids
    requires Projects(child, kid, t.kids[parts[0]], parts[1..], G) && o !in G && o.m == map[parts[0] := child]
    ensures Projects(VMap(o), Fresh(o, map[parts[0] := kid]), t, parts, G + {o})
  {
    hide Own, Fits, Apart, PDen, Sound, Den, Project;
    OneKey(o, parts[0], kid, t);
    OneKeySound(o, parts[0], kid);
    ProjectKey(t, parts, PDen(kid));
  }

  lemma WholeProjects(t: Tree, parts: seq<string>)
    requires parts == [] || t.TNull?
    ensures Projects(Ref(t), Whole(t), t, parts, {})
  {
  }

  lemma AbsentPath(t: Tree, parts: seq<string>)
    requires parts != [] && !t.TNull?
    ensures parts[0] == EACH && !t.TArr? ==> Project(Den(t), parts).None?
    ensures parts[0] != EACH && (!t.TObj? || parts[0] !in t.kids) ==> Project(Den(t), parts).None?
    ensures parts[0] != EACH && t.TObj? && parts[0] in t.kids ==>
      (Project(Den(t), parts).Some? <==> Project(Den(t.kids[parts[0]]), parts[1..]).Some?)
  {
  }

  lemma RefKind(t: Tree)
    ensures Ref(t).VNull? <==> t.TNull?
    ensures Ref(t).VSlice? <==> t.TArr?
    ensures Ref(t).VMap? <==> t.TObj?
  {
  }

  /** project. When the path is absent the value is nil. */
  method ProjectVal(src: Val, parts: seq<string>, ghost t: Tree, ghost R: set<GoMap>)
    returns (v: Val, found: bool, ghost p: Piece, ghost F: set<GoMap>)
    requires src == Ref(t) && Holds(t) && Objs(t) <= R
    ensures fresh(F)
    ensures found <==> Project(Den(t), parts).Some?
    ensures if found then Projects(v, p, t, parts, F) else v == VNull && p == Hole
    decreases parts, 0
  {
    hide *;
    v, found, p, F := VNull, false, Hole, {};
    RefKind(t);
    if parts == [] || src == VNull {
      WholeProjects(t, parts);
      ProjectsFound(src, Whole(t), t, parts, {});
      v, found, p := src, true, Whole(t);
      return;
    }
    AbsentPath(t, parts);
    if parts[0] == EACH {
      if src.VSlice? {
        assert parts == [EACH] + parts[1..];
        v, found, p, F := ProjectItems(src.items, parts[1..], t, R);
      }
      return;
    }
    if !src.VMap? { return; }
    TreeKids(t, src.o);
    if parts[0] !in src.o.m { return; }
    var child, ok, kid, G := ProjectVal(src.o.m[parts[0]], parts[1..], t.kids[parts[0]], R);
    if !ok { return; }
    label before:
    var o := new GoMap();
    o.m := map[parts[0] := child];
    assert Projects(child, kid, t.kids[parts[0]], parts[1..], G) by {
      assert old@before(Projects(child, kid, t.kids[parts[0]], parts[1..], G));
    }
    KeyProjects(t, parts, o, child, kid, G);
    v, found, p, F := VMap(o), true, Fresh(o, map[parts[0] := kid]), G + {o};
  }

  lemma ProjectsFound(v: Val, p: Piece, t: Tree, parts: seq<string>, F: set<GoMap>)
    requires Projects(v, p, t, parts, F)
    ensures Project(Den(t), parts) == Some(PDen(p))
  {
  }

  function Paths(allow: seq<string>): seq<seq<string>> {
    seq(|allow|, i requires 0 <= i < |allow| => SplitFrom(allow[i], ""))
  }

  lemma PathsStep(allow: seq<string>, i: nat)
    requires i < |allow|
    ensures Paths(allow[i..]) == [SplitFrom(allow[i], "")] + Paths(allow[i + 1..])
  {
  }

  /** The result so far: an own map that shares nothing with the response but
      the parts it aliases. */
  ghost predicate Built(result: GoMap, p: Piece, t: Tree, F: set<GoMap>)
    reads F
  {
    p.Fresh? && p.o == result && Fits(p, t) && Apart(p) && Own(p) <= F && Sound(p)
  }

  lemma EmptyBuilt(result: GoMap, t: Tree)
    requires t.TObj? && result.m == map[]
    ensures Built(result, Fresh(result, map[]), t, {result}) && PDen(Fresh(result, map[])) == Obj(map[])
  {
  }

  /** What deepMerge(result, projected) needs ... */
  lemma MergeReady(result: GoMap, p: Piece, q: Piece, v: Val, t: Tree, parts: seq<string>, F: set<GoMap>, G: set<GoMap>)
    requires t.TObj? && Built(result, p, t, F) && Projects(v, q, t, parts, G) && Holds(t)
    requires F !! G && F !! Objs(t) && G !! Objs(t)
    ensures MapLike(p) && MapLike(q) && PRef(p) == VMap(result) && v.VMap? && PRef(q) == VMap(v.o) && Ready(p, q, t)
    ensures Own(p) <= F && Own(q) <= G
  {
  }

  /** ... and what it leaves. */
  lemma MergeBuilt(result: GoMap, p: Piece, q: Piece, v: Val, t: Tree, parts: seq<string>, F: set<GoMap>, G: set<GoMap>)
    requires t.TObj? && p.Fresh? && p.o == result && MapLike(q) && Fits(p, t) && Fits(q, t) && Apart(p) && Apart(q)
    requires Own(p) <= F && Own(q) <= G && F !! G && Sound(MergeP(p, q))
    requires Project(Den(t), parts) == Some(PDen(q))
    ensures Built(result, MergeP(p, q), t, F + G)
    ensures Project(Den(t), parts).value.Obj? && PDen(MergeP(p, q)) == Merge(PDen(p), Project(Den(t), parts).value)
  {
    MergeMeans(p, q, t);
    MergeStaysApart(p, q, t);
    KidsDen(q);
  }

  lemma ProjectionParts(v: Val, q: Piece, t: Tree, parts: seq<string>, G: set<GoMap>)
    requires Projects(v, q, t, parts, G)
    ensures Fits(q, t) && Apart(q) && Own(q) <= G && Project(Den(t), parts) == Some(PDen(q))
  {
  }

  lemma BuiltParts(result: GoMap, p: Piece, t: Tree, F: set<GoMap>)
    requires Built(result, p, t, F)
    ensures p.Fresh? && p.o == result && Fits(p, t) && Apart(p) && Own(p) <= F
  {
  }

  lemma MergeAllStep(result: Json, data: Json, paths: seq<seq<string>>)
    requires paths != []
    ensures MergeAll(result, data, paths) ==
      var p := Project(data, paths[0]);
      MergeAll(if p.Some? && p.value.Obj? then Merge(result, p.value) else result, data, paths[1..])
  {
  }

  // ----- what a value on the heap stands for

  /** The value, with everything reachable from it, is the given JSON. */
  ghost predicate Stands(v: Val, j: Json)
    reads *
    decreases j
  {
    match j
    case Null => v == VNull
    case Scalar(text) => v == VScalar(text)
    case Arr(items) => v.VSlice? && |v.items| == |items| && forall i :: 0 <= i < |items| ==>
      Stands(v.items[i], items[i])
    case Obj(fields) => v.VMap? && v.o.m.Keys == fields.Keys && forall k :: k in fields ==> Stands(v.o.m[k], fields[k])
  }

  lemma {:induction false} TreeStands(t: Tree)
    requires Holds(t)
    ensures Stands(Ref(t), Den(t))
  {
    match t
    case TNull =>
    case TScalar(_) =>
    case TArr(items) => forall i | 0 <= i < |items|
      ensures Stands(Ref(items[i]), Den(items[i])) { TreeStands(items[i]); }
    case TObj(o, kids) => forall k | k in kids ensures Stands(Ref(kids[k]), Den(kids[k])) { TreeStands(kids[k]); }
  }

  /** Under its aliased parts a partial copy shows the response itself. */
  lemma {:induction false} PieceStands(p: Piece, t: Tree)
    requires Fits(p, t) && Sound(p) && Holds(t)
    ensures Stands(PRef(p), PDen(p))
  {
    match p
    case Whole(_) => TreeStands(t);
    case Slice(items) =>
      forall i | 0 <= i < |items| ensures Stands(PRef(items[i]), PDen(items[i])) {
        if !items[i].Hole? { PieceStands(items[i], t.items[i]); }
      }
    case Fresh(_, kids) =>
      forall k | k in kids ensures Stands(PRef(kids[k]), PDen(kids[k])) { PieceStands(kids[k], t.kids[k]); }
  }

  /** Shape. Without an allow-list the response itself is returned. With one, what
      is returned stands for the shaped response, and although the merges may write
      into maps of the response, its contents are the same afterwards. */
  method Shape(data: GoMap, allow: Option<seq<string>>, ghost t: Tree, ghost R: set<GoMap>) returns (result: GoMap)
    requires t.TObj? && t.o == data && Holds(t) && Objs(t) <= R
    modifies Objs(t)
    ensures unchanged(Objs(t))
    ensures allow.None? ==> result == data
    ensures allow.Some? ==> fresh(result) && Stands(VMap(result), ShapeOf(Den(t), Paths(allow.value)))
  {
    hide *;
    if allow.None? { return data; }
    var fields := allow.value;
    result := new GoMap();
    ghost var p, F := Fresh(result, map[]), {result};
    EmptyBuilt(result, t);
    ShapeStart(Den(t), fields);
    for i := 0 to |fields|
      invariant fresh(F) && result in F && unchanged(Objs(t)) && Holds(t) && Built(result, p, t, F)
      invariant MergeAll(PDen(p), Den(t), Paths(fields[i..])) == ShapeOf(Den(t), Paths(fields))
    {
      PathsStep(fields, i);
      var parts := SplitPath(fields[i]);
      MergeAllStep(PDen(p), Den(t), Paths(fields[i..]));
      assert Ref(t) == VMap(data) by { RootRef(t); }
      label before:
      var v, found, q, G := ProjectVal(VMap(data), parts, t, R);
      assert Holds(t) && Built(result, p, t, F) by { assert old@before(Holds(t) && Built(result, p, t, F)); }
      if found {
        MergeReady(result, p, q, v, t, parts, F, G);
        ProjectionParts(v, q, t, parts, G);
        BuiltParts(result, p, t, F);
        label merging:
        DeepMerge(result, v.o, p, q, t, F + G + Objs(t));
        assert Holds(t) by { assert old@merging(Holds(t)); }
        MergeBuilt(result, p, q, v, t, parts, F, G);
        p, F := MergeP(p, q), F + G;
      }
    }
    ShapeEnd(p, Den(t), fields);
    BuiltRef(result, p, t, F);
    BuiltParts(result, p, t, F);
    PieceStands(p, t);
  }

  lemma ShapeStart(data: Json, fields: seq<string>)
    ensures MergeAll(Obj(map[]), data, Paths(fields[0..])) == ShapeOf(data, Paths(fields))
  {
  }

  lemma ShapeEnd(p: Piece, data: Json, fields: seq<string>)
    ensures MergeAll(PDen(p), data, Paths(fields[|fields|..])) == PDen(p)
  {
  }

  lemma RootRef(t: Tree)
    requires t.TObj?
    ensures Ref(t) == VMap(t.o)
  {
  }

  lemma BuiltRef(result: GoMap, p: Piece, t: Tree, F: set<GoMap>)
    requires Built(result, p, t, F)
    ensures PRef(p) == VMap(result) && Sound(p)
  {
  }
}
