/** The structural three-way merge of parsed documents. */
module StructuralMerge {

  /** A parsed value; Mark stands where the two sides diverge, Absent for a side that dropped the key. */
  datatype Val =
    | Null
    | Atom(text: string)
    | Arr(items: seq<Val>)
    | Obj(fields: map<string, Val>)
    | Mark(base: Val, ours: Val, theirs: Val)
    | Absent

  /** One side's value for a key, if it has the key. */
  datatype Side = Gone | Here(v: Val)

  function Field(m: map<string, Val>, k: string): Side {
    if k in m then Here(m[k]) else Gone
  }

  /** The fields of the base; a base that is no object counts as an empty one. */
  function Fields(v: Val): map<string, Val> {
    if v.Obj? then v.fields else map[]
  }

  function SideOrAbsent(s: Side): Val {
    if s.Here? then s.v else Absent
  }

  /** What becomes of one key, where deep is the merge of two values both present; Gone leaves it out. */
  function KeyMerge(b: Side, o: Side, t: Side, deep: Val): Side {
    if o == t then o
    else if b == o then t
    else if b == t then o
    else if o.Here? && t.Here? then Here(deep)
    else Here(Mark(SideOrAbsent(b), SideOrAbsent(o), SideOrAbsent(t)))
  }

  /** The base value two present sides are merged against; a missing one counts as null. */
  function BaseValue(b: Side): Val {
    if b.Here? then b.v else Null
  }

  /** The merge of the values of k where both sides have it. */
  function Deep(bm: map<string, Val>, o: Val, t: Val, k: string): Val
    requires o.Obj? && t.Obj?
    decreases o, 0
  {
    if k in o.fields && k in t.fields then MergeTree(BaseValue(Field(bm, k)), o.fields[k], t.fields[k]) else Null
  }

  function MergedKey(bm: map<string, Val>, o: Val, t: Val, k: string): Side
    requires o.Obj? && t.Obj?
    decreases o, 1
  {
    KeyMerge(Field(bm, k), Field(o.fields, k), Field(t.fields, k), Deep(bm, o, t, k))
  }

  function ObjectMerge(bm: map<string, Val>, o: Val, t: Val): Val
    requires o.Obj? && t.Obj?
    decreases o, 3
  {
    Obj(MergedKeys(bm, o, t, bm.Keys + o.fields.Keys + t.fields.Keys))
  }

  function MergedKeys(bm: map<string, Val>, o: Val, t: Val, keys: set<string>): map<string, Val>
    requires o.Obj? && t.Obj?
    decreases o, 2
  {
    map k | k in keys && MergedKey(bm, o, t, k).Here? :: MergedKey(bm, o, t, k).v
  }

  function MergeTree(b: Val, o: Val, t: Val): Val
    decreases o, 4
  {
    if o == t then o
    else if b == o then t
    else if b == t then o
    else if o.Obj? && t.Obj? then ObjectMerge(Fields(b), o, t)
    else Mark(b, o, t)
  }

  lemma MergedField(bm: map<string, Val>, o: Val, t: Val, k: string)
    requires o.Obj? && t.Obj?
    ensures ObjectMerge(bm, o, t).Obj? && Field(ObjectMerge(bm, o, t).fields, k) == MergedKey(bm, o, t, k)
  {
  }

  // ----- following a path of keys -----

  /** What is found under a path of keys. */
  function At(v: Val, path: seq<string>): Side
    decreases |path|
  {
    if path == [] then Here(v)
    else if v.Obj? && path[0] in v.fields then At(v.fields[path[0]], path[1..])
    else Gone
  }

  /** No mark lies on the path, its end included. */
  predicate ClearOfMarks(v: Val, path: seq<string>)
    decreases |path|
  {
    !v.Mark? && (path != [] && v.Obj? && path[0] in v.fields ==> ClearOfMarks(v.fields[path[0]], path[1..]))
  }

  /** Three-way agreement at one place: an untouched side gives way to the other, equal sides stand. */
  predicate Agrees(b: Side, o: Side, t: Side, r: Side) {
    (o == b ==> r == t) && (t == b ==> r == o) && (o == t ==> r == o)
  }

  function AtSide(s: Side, path: seq<string>): Side {
    if s.Here? then At(s.v, path) else Gone
  }

  /** At every key path not under a mark the merge takes the side that changed. */
  lemma {:induction false} MergeAgrees(b: Val, o: Val, t: Val, path: seq<string>)
    requires ClearOfMarks(MergeTree(b, o, t), path)
    ensures Agrees(At(b, path), At(o, path), At(t, path), At(MergeTree(b, o, t), path))
    decreases |path|
  {
    if o != t && b != o && b != t && o.Obj? && t.Obj? && path != [] {
      var bm, k, rest := Fields(b), path[0], path[1..];
      var r := ObjectMerge(bm, o, t);
      var m := MergedKey(bm, o, t, k);
      MergedField(bm, o, t, k);
      assert At(r, path) == AtSide(m, rest);
      assert At(o, path) == AtSide(Field(o.fields, k), rest) && At(t, path) == AtSide(Field(t.fields, k), rest);
      assert At(b, path) == AtSide(Field(bm, k), rest);
      if k in o.fields && k in t.fields && m == Here(Deep(bm, o, t, k)) {
        MergeAgrees(BaseValue(Field(bm, k)), o.fields[k], t.fields[k], rest);
      }
    }
  }

  // ----- exchanging the sides -----

  function SwapVal(v: Val): Val
    decreases v
  {
    match v
    case Mark(b, o, t) => Mark(b, t, o)
    case Obj(m) => Obj(map k | k in m :: SwapVal(m[k]))
    case _ => v
  }

  /** No mark anywhere a merge could put one. */
  predicate MarkFree(v: Val)
    decreases v
  {
    match v
    case Mark(_, _, _) => false
    case Obj(m) => forall k | k in m :: MarkFree(m[k])
    case _ => true
  }

  lemma {:induction false} MarkFreeSwap(v: Val)
    requires MarkFree(v)
    ensures SwapVal(v) == v
    decreases v
  {
    if v.Obj? {
      forall k | k in v.fields ensures SwapVal(v.fields[k]) == v.fields[k] {
        MarkFreeSwap(v.fields[k]);
      }
    }
  }

  /** Exchanging the sides gives the same tree with the sides of every mark exchanged. */
  lemma {:induction false} MergeSwap(b: Val, o: Val, t: Val)
    requires MarkFree(o) && MarkFree(t)
    ensures MergeTree(b, t, o) == SwapVal(MergeTree(b, o, t))
    decreases o
  {
    if o == t || b == o || b == t {
      MarkFreeSwap(o);
      MarkFreeSwap(t);
    } else if o.Obj? && t.Obj? {
      var bm := Fields(b);
      forall k ensures MergedKey(bm, t, o, k) == SwapSide(MergedKey(bm, o, t, k)) {
        KeySwap(bm, o, t, k);
      }
      SwapFields(bm, o, t);
    }
  }

  /** Swapping key by key swaps the whole object. */
  lemma SwapFields(bm: map<string, Val>, o: Val, t: Val)
    requires o.Obj? && t.Obj?
    requires forall k :: MergedKey(bm, t, o, k) == SwapSide(MergedKey(bm, o, t, k))
    ensures ObjectMerge(bm, t, o) == SwapVal(ObjectMerge(bm, o, t))
  {
    var x, y := ObjectMerge(bm, t, o).fields, ObjectMerge(bm, o, t).fields;
    var z := map k | k in y :: SwapVal(y[k]);
    forall k ensures (k in x <==> k in y) && (k in x ==> x[k] == z[k]) {
      assert MergedKey(bm, t, o, k) == SwapSide(MergedKey(bm, o, t, k));
      MergedField(bm, t, o, k);
      MergedField(bm, o, t, k);
    }
    assert x == z;
  }

  function SwapSide(s: Side): Side {
    if s.Here? then Here(SwapVal(s.v)) else Gone
  }

  lemma {:induction false} KeySwap(bm: map<string, Val>, o: Val, t: Val, k: string)
    requires o.Obj? && t.Obj? && MarkFree(o) && MarkFree(t)
    ensures MergedKey(bm, t, o, k) == SwapSide(MergedKey(bm, o, t, k))
    decreases o, 0
  {
    if k in o.fields { MarkFreeSwap(o.fields[k]); }
    if k in t.fields { MarkFreeSwap(t.fields[k]); }
    if k in o.fields && k in t.fields {
      MergeSwap(BaseValue(Field(bm, k)), o.fields[k], t.fields[k]);
    }
  }

  // ----- counting conflicts -----

  ghost function Sum(m: map<string, nat>): nat
    decreases |m|
  {
    if m == map[] then 0
    else
      var k :| k in m;
      assert |m - {k}| < |m| by { assert (m - {k}).Keys == m.Keys - {k}; }
      m[k] + Sum(m - {k})
  }

  /** The sum does not depend on the order the keys are taken in. */
  lemma {:induction false} SumWithout(m: map<string, nat>, k: string)
    requires k in m
    ensures Sum(m) == m[k] + Sum(m - {k})
    decreases |m|
  {
    var c :| c in m && Sum(m) == m[c] + Sum(m - {c});
    if c != k {
      assert |m - {c}| < |m| by { assert (m - {c}).Keys == m.Keys - {c}; }
      SumWithout(m - {c}, k);
      SumWithoutOther(m, c, k);
    }
  }

  lemma {:induction false} SumWithoutOther(m: map<string, nat>, c: string, k: string)
    requires k in m && c in m && c != k
    ensures Sum(m - {k}) == m[c] + Sum(m - {c} - {k})
    decreases |m|, 0
  {
    assert |m - {k}| < |m| by { assert (m - {k}).Keys == m.Keys - {k}; }
    SumWithout(m - {k}, c);
    assert m - {k} - {c} == m - {c} - {k};
  }

  lemma SumWith(m: map<string, nat>, k: string, n: nat)
    requires k !in m
    ensures Sum(m[k := n]) == Sum(m) + n
  {
    SumWithout(m[k := n], k);
    assert m[k := n] - {k} == m;
  }

  /** Marks in a value; what a mark holds is not looked into. */
  ghost function Marks(v: Val): nat
    decreases v
  {
    match v
    case Mark(_, _, _) => 1
    case Obj(m) => Sum(map k | k in m :: Marks(m[k]))
    case _ => 0
  }

  lemma MarksWith(m: map<string, Val>, k: string, v: Val)
    requires k !in m
    ensures Marks(Obj(m[k := v])) == Marks(Obj(m)) + Marks(v)
  {
    var c := map j | j in m :: Marks(m[j]);
    SumWith(c, k, Marks(v));
    var after := m[k := v];
    assert c[k := Marks(v)] == map j | j in after :: Marks(after[j]);
  }

  lemma {:induction false} MarkFreeHasNone(v: Val)
    requires MarkFree(v)
    ensures Marks(v) == 0
    decreases v
  {
    if v.Obj? {
      var c := map k | k in v.fields :: Marks(v.fields[k]);
      forall k | k in c ensures c[k] == 0 {
        MarkFreeHasNone(v.fields[k]);
      }
      SumOfNothing(c);
    }
  }

  lemma {:induction false} SumOfNothing(m: map<string, nat>)
    requires forall k | k in m :: m[k] == 0
    ensures Sum(m) == 0
    decreases |m|
  {
    if m != map[] {
      var k :| k in m;
      assert |m - {k}| < |m| by { assert (m - {k}).Keys == m.Keys - {k}; }
      SumOfNothing(m - {k});
      SumWithout(m, k);
    }
  }

  /** For inputs without marks, n is the number of marks in v. */
  ghost predicate Counts(o: Val, t: Val, v: Val, n: nat) {
    MarkFree(o) && MarkFree(t) ==> n == Marks(v)
  }

  /** The merge with its running count: for inputs without marks, the count is the number of marks in the result. */
  method MergeCounted(b: Val, o: Val, t: Val) returns (v: Val, n: nat)
    ensures v == MergeTree(b, o, t) && Counts(o, t, v, n)
    decreases o, 4
  {
    if o == t || b == o || b == t {
      v, n := if o == t then o else if b == o then t else o, 0;
      NothingToCount(o, t, v);
    } else if o.Obj? && t.Obj? {
      v, n := MergeObjects(Fields(b), o, t);
      assert ObjectDoneAs(Fields(b), o, t, v, n);
    } else {
      v, n := Mark(b, o, t), 1;
    }
  }

  lemma NothingToCount(o: Val, t: Val, v: Val)
    requires v == o || v == t
    ensures Counts(o, t, v, 0)
  {
    if MarkFree(o) && MarkFree(t) { MarkFreeHasNone(v); }
  }

  ghost predicate ObjectDone(bm: map<string, Val>, o: Val, t: Val, v: Val, n: nat)
    requires o.Obj? && t.Obj?
  {
    forall x | x == v :: ObjectDoneAs(bm, o, t, x, n)
  }

  ghost predicate ObjectDoneAs(bm: map<string, Val>, o: Val, t: Val, v: Val, n: nat)
    requires o.Obj? && t.Obj?
  {
    v == ObjectMerge(bm, o, t) && Counts(o, t, v, n)
  }

  /** Some of the keys have been merged and counted. */
  ghost predicate KeysDone(bm: map<string, Val>, o: Val, t: Val, keys: set<string>, out: map<string, Val>, n: nat)
    requires o.Obj? && t.Obj?
  {
    forall x | x == out :: KeysDoneAs(bm, o, t, keys, x, n)
  }

  ghost predicate KeysDoneAs(bm: map<string, Val>, o: Val, t: Val, keys: set<string>, out: map<string, Val>, n: nat)
    requires o.Obj? && t.Obj?
  {
    out == MergedKeys(bm, o, t, keys) && Counts(o, t, Obj(out), n)
  }

  ghost predicate KeyDone(bm: map<string, Val>, o: Val, t: Val, k: string, s: Side, n: nat)
    requires o.Obj? && t.Obj?
  {
    forall x | x == s :: KeyDoneAs(bm, o, t, k, x, n)
  }

  ghost predicate KeyDoneAs(bm: map<string, Val>, o: Val, t: Val, k: string, s: Side, n: nat)
    requires o.Obj? && t.Obj?
  {
    s == MergedKey(bm, o, t, k) && if s.Here? then Counts(o, t, s.v, n) else n == 0
  }

  lemma NoKeys(bm: map<string, Val>, o: Val, t: Val)
    requires o.Obj? && t.Obj?
    ensures KeysDone(bm, o, t, {}, map[], 0)
  {
    var m: map<string, Val> := map[];
    var c := map k | k in m :: Marks(m[k]);
    assert c == map[] && Marks(Obj(m)) == Sum(c);
    assert MergedKeys(bm, o, t, {}) == m;
    assert KeysDoneAs(bm, o, t, {}, map[], 0);
  }

  lemma OneKeyMore(bm: map<string, Val>, o: Val, t: Val, keys: set<string>, out: map<string, Val>, n: nat, k: string,
                   s: Side, c: nat)
    requires o.Obj? && t.Obj? && k !in keys && KeysDone(bm, o, t, keys, out, n) && KeyDone(bm, o, t, k, s, c)
    ensures KeysDone(bm, o, t, keys + {k}, if s.Here? then out[k := s.v] else out, n + c)
  {
    assert KeysDoneAs(bm, o, t, keys, out, n) && KeyDoneAs(bm, o, t, k, s, c);
    MergeOneMore(bm, o, t, keys, k);
    if s.Here? { MarksWith(out, k, s.v); }
    assert KeysDoneAs(bm, o, t, keys + {k}, if s.Here? then out[k := s.v] else out, n + c);
  }

  lemma MergeOneMore(bm: map<string, Val>, o: Val, t: Val, keys: set<string>, k: string)
    requires o.Obj? && t.Obj?
    ensures var m, s := MergedKeys(bm, o, t, keys), MergedKey(bm, o, t, k);
            MergedKeys(bm, o, t, keys + {k}) == (if s.Here? then m[k := s.v] else m)
    ensures k !in keys ==> k !in MergedKeys(bm, o, t, keys)
  {
  }

  lemma AllKeysDone(bm: map<string, Val>, o: Val, t: Val, out: map<string, Val>, n: nat)
    requires o.Obj? && t.Obj? && KeysDone(bm, o, t, bm.Keys + o.fields.Keys + t.fields.Keys, out, n)
    ensures ObjectDone(bm, o, t, Obj(out), n)
  {
    assert KeysDoneAs(bm, o, t, bm.Keys + o.fields.Keys + t.fields.Keys, out, n);
    assert ObjectDoneAs(bm, o, t, Obj(out), n);
  }

  method MergeObjects(bm: map<string, Val>, o: Val, t: Val) returns (v: Val, total: nat)
    requires o.Obj? && t.Obj?
    ensures ObjectDone(bm, o, t, v, total)
    decreases o, 3
  {
    var out;
    out, total := MergeAllKeys(bm, o, t, bm.Keys + o.fields.Keys + t.fields.Keys);
    AllKeysDone(bm, o, t, out, total);
    v := Obj(out);
  }

  lemma OneLess(seen: set<string>, rest: set<string>, done: set<string>, k: string)
    requires k in rest && rest <= seen && done == seen - rest
    ensures k !in done && done + {k} == seen - (rest - {k})
  {
  }

  method MergeAllKeys(bm: map<string, Val>, o: Val, t: Val, seen: set<string>)
    returns (out: map<string, Val>, total: nat)
    requires o.Obj? && t.Obj?
    ensures KeysDone(bm, o, t, seen, out, total)
    decreases o, 2
  {
    var rest := seen;
    out, total := map[], 0;
    ghost var done: set<string> := {};
    NoKeys(bm, o, t);
    while rest != {}
      invariant rest <= seen && done == seen - rest
      invariant KeysDone(bm, o, t, done, out, total)
      decreases |rest|
    {
      var k :| k in rest;
      OneLess(seen, rest, done, k);
      var s, c := MergeKey(bm, o, t, k);
      OneKeyMore(bm, o, t, done, out, total, k, s, c);
      total := total + c;
      if s.Here? {
        out := out[k := s.v];
      }
      done, rest := done + {k}, rest - {k};
    }
    assert done == seen;
  }

  method MergeKey(bm: map<string, Val>, o: Val, t: Val, k: string) returns (s: Side, c: nat)
    requires o.Obj? && t.Obj?
    ensures KeyDone(bm, o, t, k, s, c)
    decreases o, 1
  {
    var bs, os, ts := Field(bm, k), Field(o.fields, k), Field(t.fields, k);
    c := 0;
    if os == ts {
      s := os;
    } else if bs == os {
      s := ts;
    } else if bs == ts {
      s := os;
    } else if os.Here? && ts.Here? {
      var m;
      m, c := MergeCounted(BaseValue(bs), os.v, ts.v);
      s := Here(m);
    } else {
      s, c := Here(Mark(SideOrAbsent(bs), SideOrAbsent(os), SideOrAbsent(ts))), 1;
    }
    KeyIsDone(bm, o, t, k, s, c);
  }

  lemma KeyIsDone(bm: map<string, Val>, o: Val, t: Val, k: string, s: Side, c: nat)
    requires o.Obj? && t.Obj?
    requires var bs, os, ts := Field(bm, k), Field(o.fields, k), Field(t.fields, k);
             if os == ts || bs == os || bs == ts then s == (if os == ts then os else if bs == os then ts else os)
             && c == 0
             else if os.Here? && ts.Here? then s == Here(MergeTree(BaseValue(bs), os.v, ts.v))
             && Counts(os.v, ts.v, s.v, c)
             else s == Here(Mark(SideOrAbsent(bs), SideOrAbsent(os), SideOrAbsent(ts))) && c == 1
    ensures KeyDone(bm, o, t, k, s, c)
  {
    if MarkFree(o) && MarkFree(t) {
      if k in o.fields { MarkFreeHasNone(o.fields[k]); }
      if k in t.fields { MarkFreeHasNone(t.fields[k]); }
    }
    assert s == MergedKey(bm, o, t, k);
    assert KeyDoneAs(bm, o, t, k, s, c);
  }

  // ----- where the marks stand -----

  /**
   The sides cannot both have their way at one place: all three values differ, and the two sides are
   not both objects. Where the base has nothing, a null of either side counts as nothing too.
   */
  predicate Diverges(b: Side, o: Side, t: Side) {
    && o != t && b != o && b != t
    && !(o.Here? && t.Here? && o.v.Obj? && t.v.Obj?)
    && (b.Gone? ==> o != Here(Null) && t != Here(Null))
  }

  /** What stands at such a place. */
  function MarkFor(b: Side, o: Side, t: Side): Val {
    Mark(if b.Gone? then Null else b.v, if o.Gone? then Absent else o.v, if t.Gone? then Absent else t.v)
  }

  predicate DivergesAt(b: Side, o: Side, t: Side, path: seq<string>) {
    Diverges(AtSide(b, path), AtSide(o, path), AtSide(t, path))
  }

  /** The sides diverge at the end of the path or before it. */
  ghost predicate DivergesOn(b: Side, o: Side, t: Side, path: seq<string>) {
    exists i: nat :: i <= |path| && DivergesAt(b, o, t, path[..i])
  }

  lemma AtFurther(v: Val, path: seq<string>, i: nat)
    requires 0 < i <= |path|
    ensures AtSide(Here(v), path[..i]) == AtSide(Field(Fields(v), path[0]), path[1..][..i - 1])
  {
    assert path[..i][1..] == path[1..][..i - 1];
  }

  lemma DivergesFurther(b: Val, o: Val, t: Val, path: seq<string>)
    requires path != []
    ensures DivergesOn(Here(b), Here(o), Here(t), path) <==>
      Diverges(Here(b), Here(o), Here(t))
      || DivergesOn(Field(Fields(b), path[0]), Field(Fields(o), path[0]), Field(Fields(t), path[0]), path[1..])
  {
    var k, rest := path[0], path[1..];
    var bs, os, ts := Field(Fields(b), k), Field(Fields(o), k), Field(Fields(t), k);
    forall i: nat | 0 < i <= |path|
      ensures DivergesAt(Here(b), Here(o), Here(t), path[..i]) == DivergesAt(bs, os, ts, rest[..i - 1])
    {
      AtFurther(b, path, i);
      AtFurther(o, path, i);
      AtFurther(t, path, i);
    }
    assert path[..0] == [] && DivergesAt(Here(b), Here(o), Here(t), []) == Diverges(Here(b), Here(o), Here(t));
    if DivergesOn(bs, os, ts, rest) {
      var j: nat :| j <= |rest| && DivergesAt(bs, os, ts, rest[..j]);
      assert DivergesAt(Here(b), Here(o), Here(t), path[..j + 1]);
    }
    if DivergesOn(Here(b), Here(o), Here(t), path) {
      var i: nat :| i <= |path| && DivergesAt(Here(b), Here(o), Here(t), path[..i]);
      if i > 0 { assert DivergesAt(bs, os, ts, rest[..i - 1]); }
    }
  }

  lemma DivergesHere(b: Side, o: Side, t: Side, path: seq<string>)
    ensures Diverges(b, o, t) && b.Here? && o.Here? && t.Here? ==> DivergesOn(b, o, t, path)
    ensures Diverges(b, o, t) && path == [] ==> DivergesOn(b, o, t, path)
    ensures o == t || b == o || b == t ==> !DivergesOn(b, o, t, path)
  {
    assert path[..0] == [];
    assert AtSide(b, []) == b && AtSide(o, []) == o && AtSide(t, []) == t;
    if Diverges(b, o, t) { assert DivergesAt(b, o, t, path[..0]); }
  }

  lemma {:induction false} MarkFreeIsClear(v: Val, path: seq<string>)
    requires MarkFree(v)
    ensures ClearOfMarks(v, path)
    decreases |path|
  {
    if path != [] && v.Obj? && path[0] in v.fields { MarkFreeIsClear(v.fields[path[0]], path[1..]); }
  }

  /** A base without the key and a base with a null in it diverge from two values alike. */
  lemma NullBaseDiverges(o: Val, t: Val, path: seq<string>)
    ensures DivergesOn(Gone, Here(o), Here(t), path) <==> DivergesOn(Here(Null), Here(o), Here(t), path)
  {
    forall i: nat | i <= |path|
      ensures DivergesAt(Gone, Here(o), Here(t), path[..i]) == DivergesAt(Here(Null), Here(o), Here(t), path[..i])
    {
      if i == 0 { assert path[..0] == []; }
    }
  }

  /** A path meets a mark exactly when the sides diverge somewhere on it. */
  lemma {:induction false} MarkedExactly(b: Val, o: Val, t: Val, path: seq<string>)
    requires MarkFree(o) && MarkFree(t)
    ensures !ClearOfMarks(MergeTree(b, o, t), path) <==> DivergesOn(Here(b), Here(o), Here(t), path)
    decreases |path|, 0
  {
    DivergesHere(Here(b), Here(o), Here(t), path);
    if o == t || b == o || b == t {
      MarkFreeIsClear(MergeTree(b, o, t), path);
    } else if o.Obj? && t.Obj? {
      if path != [] {
        DivergesFurther(b, o, t, path);
        MergedField(Fields(b), o, t, path[0]);
        KeyMarkedExactly(Fields(b), o, t, path[0], path[1..]);
      } else {
        assert !DivergesAt(Here(b), Here(o), Here(t), []);
      }
    }
  }

  ghost predicate MarkedOn(s: Side, path: seq<string>) {
    s.Here? && !ClearOfMarks(s.v, path)
  }

  lemma KeyMarkedExactly(bm: map<string, Val>, o: Val, t: Val, k: string, rest: seq<string>)
    requires o.Obj? && t.Obj? && MarkFree(o) && MarkFree(t)
    ensures MarkedOn(MergedKey(bm, o, t, k), rest)
      <==> DivergesOn(Field(bm, k), Field(o.fields, k), Field(t.fields, k), rest)
    decreases |rest|, 1
  {
    var bs, os, ts := Field(bm, k), Field(o.fields, k), Field(t.fields, k);
    if os.Here? { MarkFreeIsClear(os.v, rest); }
    if ts.Here? { MarkFreeIsClear(ts.v, rest); }
    DivergesHere(bs, os, ts, rest);
    if os != ts && bs != os && bs != ts {
      if os.Here? && ts.Here? {
        MarkedExactly(BaseValue(bs), os.v, ts.v, rest);
        if bs.Gone? { NullBaseDiverges(os.v, ts.v, rest); }
      } else {
        assert rest[..0] == [] && Diverges(bs, os, ts);
        assert AtSide(bs, []) == bs && AtSide(os, []) == os && AtSide(ts, []) == ts;
        assert DivergesAt(bs, os, ts, rest[..0]);
      }
    }
  }

  ghost predicate FirstOn(b: Side, o: Side, t: Side, path: seq<string>) {
    DivergesAt(b, o, t, path) && forall i: nat | i < |path| :: !DivergesAt(b, o, t, path[..i])
  }

  lemma FirstFurther(b: Val, o: Val, t: Val, path: seq<string>)
    requires path != [] && FirstOn(Here(b), Here(o), Here(t), path)
    ensures !Diverges(Here(b), Here(o), Here(t)) && o != t && b != o && b != t
    ensures FirstOn(Field(Fields(b), path[0]), Field(Fields(o), path[0]), Field(Fields(t), path[0]), path[1..])
  {
    var k, rest := path[0], path[1..];
    forall i: nat | 0 < i <= |path|
      ensures DivergesAt(Here(b), Here(o), Here(t), path[..i])
           == DivergesAt(Field(Fields(b), k), Field(Fields(o), k), Field(Fields(t), k), rest[..i - 1])
    {
      AtFurther(b, path, i);
      AtFurther(o, path, i);
      AtFurther(t, path, i);
    }
    assert path[..|path|] == path && rest[..|rest|] == rest;
    forall j: nat | j < |rest|
      ensures !DivergesAt(Field(Fields(b), k), Field(Fields(o), k), Field(Fields(t), k), rest[..j])
    {
      assert !DivergesAt(Here(b), Here(o), Here(t), path[..j + 1]);
    }
    assert path[..0] == [] && !DivergesAt(Here(b), Here(o), Here(t), path[..0]);
  }

  /** Where the sides diverge first on a path, the merge has the three values side by side. */
  lemma {:induction false} FirstMark(b: Val, o: Val, t: Val, path: seq<string>)
    requires FirstOn(Here(b), Here(o), Here(t), path)
    ensures At(MergeTree(b, o, t), path) == Here(MarkFor(At(b, path), At(o, path), At(t, path)))
    decreases |path|, 0
  {
    if path != [] {
      var k, rest := path[0], path[1..];
      FirstFurther(b, o, t, path);
      MergedField(Fields(b), o, t, k);
      KeyFirstMark(Fields(b), o, t, k, rest);
      assert At(b, path) == AtSide(Field(Fields(b), k), rest);
    }
  }

  lemma KeyFirstMark(bm: map<string, Val>, o: Val, t: Val, k: string, rest: seq<string>)
    requires o.Obj? && t.Obj? && FirstOn(Field(bm, k), Field(o.fields, k), Field(t.fields, k), rest)
    ensures var bs, os, ts := Field(bm, k), Field(o.fields, k), Field(t.fields, k);
            AtSide(MergedKey(bm, o, t, k), rest)
            == Here(MarkFor(AtSide(bs, rest), AtSide(os, rest), AtSide(ts, rest)))
    decreases |rest|, 1
  {
    var bs, os, ts := Field(bm, k), Field(o.fields, k), Field(t.fields, k);
    if os.Here? && ts.Here? {
      if bs.Gone? { NullBaseFirst(os.v, ts.v, rest); }
      FirstMark(BaseValue(bs), os.v, ts.v, rest);
    } else {
      assert rest[..0] == [] && DivergesAt(bs, os, ts, rest[..0]);
    }
  }

  lemma NullBaseFirst(o: Val, t: Val, path: seq<string>)
    requires FirstOn(Gone, Here(o), Here(t), path)
    ensures FirstOn(Here(Null), Here(o), Here(t), path)
  {
    forall i: nat | i < |path| ensures !DivergesAt(Here(Null), Here(o), Here(t), path[..i]) {
      assert !DivergesAt(Gone, Here(o), Here(t), path[..i]);
    }
  }

  /**
   Two sides that add the same key clash exactly when their values differ, neither is null, and they
   are not both objects: a null gives way to the other side without a mark.
   */
  lemma AddedKeyClashes(o: Val, t: Val, k: string)
    requires o.Obj? && t.Obj? && k in o.fields && k in t.fields
    requires MarkFree(o) && MarkFree(t)
    ensures var r, x, y := MergedKey(map[], o, t, k), o.fields[k], t.fields[k];
            r.Here? && (r.v.Mark? <==> x != y && x != Null && y != Null && !(x.Obj? && y.Obj?))
  {
    var x, y := o.fields[k], t.fields[k];
    assert MarkFree(x) && MarkFree(y);
    assert MergedKey(map[], o, t, k) == if x == y then Here(x) else Here(MergeTree(Null, x, y));
  }
}
