/** The viewer's notion of equal values. */
module DeepEqual {
  import opened Types

  /** A property key: an array index, or any other name. */
  datatype Key = Index(i: nat) | Name(s: string)

  const LENGTH: Key := Name("length")

  datatype Json =
    | Undefined
    | Null
    | Bool(b: bool)
    | Num(n: int)
    | Str(s: string)
    | Arr(items: seq<Json>)
    | Obj(fields: map<Key, Json>)

  predicate IsObject(a: Json) {
    a.Arr? || a.Obj?
  }

  /** The keys that are enumerated. */
  function Keys(a: Json): set<Key>
    requires IsObject(a)
  {
    if a.Obj? then a.fields.Keys else set i | 0 <= i < |a.items| :: Index(i)
  }

  /** The keys that are found: an array also answers to its length. */
  predicate Has(a: Json, k: Key)
    requires IsObject(a)
  {
    k in Keys(a) || (a.Arr? && k == LENGTH)
  }

  function Get(a: Json, k: Key): Json
    requires IsObject(a) && Has(a, k)
  {
    if a.Obj? then a.fields[k] else if k == LENGTH then Num(|a.items|) else a.items[k.i]
  }

  /** Arrays are compared item by item; otherwise the keys of the left side are looked up on the right side. */
  predicate DeepEqual(a: Json, b: Json)
    decreases a
  {
    if !IsObject(a) || !IsObject(b) then a == b
    else if a.Arr? && b.Arr? then
      |a.items| == |b.items| && forall i :: 0 <= i < |a.items| ==> DeepEqual(a.items[i], b.items[i])
    else
      |Keys(a)| == |Keys(b)| && forall k :: k in Keys(a) ==> Has(b, k) && DeepEqual(Get(a, k), Get(b, k))
  }

  // ---------- what it means ----------

  /** Somewhere inside, an object with a property called length on the left is compared with an array on the right. */
  ghost predicate MeetsLength(a: Json, b: Json)
    decreases a
  {
    IsObject(a) && IsObject(b) &&
    ((a.Obj? && b.Arr? && LENGTH in a.fields) ||
     exists k :: k in Keys(a) && k in Keys(b) && MeetsLength(Get(a, k), Get(b, k)))
  }

  /** Arrays read as objects whose keys are the indices. */
  ghost function Norm(a: Json): Json {
    if IsObject(a) then Obj(map k | k in Keys(a) :: Norm(Get(a, k))) else a
  }

  lemma {:induction false} IndexCount(n: nat)
    ensures |set i | 0 <= i < n :: Index(i)| == n
  {
    var keys := set i | 0 <= i < n :: Index(i);
    if n > 0 {
      IndexCount(n - 1);
      assert keys == (set i | 0 <= i < n - 1 :: Index(i)) + {Index(n - 1)};
    }
  }

  lemma {:induction false} NormFields(a: Json)
    requires IsObject(a)
    ensures Norm(a).Obj? && Norm(a).fields.Keys == Keys(a)
    ensures forall k :: k in Keys(a) ==> Norm(a).fields[k] == Norm(Get(a, k))
  {
  }

  lemma SameFields(f: map<Key, Json>, g: map<Key, Json>)
    ensures f == g <==> f.Keys == g.Keys && forall k :: k in f.Keys && k in g.Keys ==> f[k] == g[k]
  {
  }

  lemma {:induction false} NormsEqual(a: Json, b: Json)
    requires IsObject(a) && IsObject(b)
    ensures Norm(a) == Norm(b) <==>
            Keys(a) == Keys(b) && forall k :: k in Keys(a) && k in Keys(b) ==> Norm(Get(a, k)) == Norm(Get(b, k))
  {
    NormFields(a);
    NormFields(b);
    SameFields(Norm(a).fields, Norm(b).fields);
  }

  lemma {:induction false} ByKeys(a: Json, b: Json)
    requires IsObject(a) && IsObject(b) && !(a.Obj? && b.Arr? && LENGTH in a.fields)
    ensures DeepEqual(a, b) <==>
            Keys(a) == Keys(b) && forall k :: k in Keys(a) && k in Keys(b) ==> DeepEqual(Get(a, k), Get(b, k))
  {
    if a.Arr? && b.Arr? {
      IndexCount(|a.items|);
      IndexCount(|b.items|);
      assert forall i :: 0 <= i < |a.items| ==> Index(i) in Keys(a) && Get(a, Index(i)) == a.items[i];
      assert forall i :: 0 <= i < |b.items| ==> Index(i) in Keys(b) && Get(b, Index(i)) == b.items[i];
    } else if DeepEqual(a, b) {
      assert forall k :: k in Keys(a) ==> Has(b, k);
      SameSizeSubset(Keys(a), Keys(b));
    }
  }

  /** Two values have the same meaning, arrays read as index-keyed objects, exactly when they compare equal and no
      object with a length property meets an array on the way. */
  lemma {:induction false} SameNormIffDeepEqual(a: Json, b: Json)
    ensures Norm(a) == Norm(b) <==> DeepEqual(a, b) && !MeetsLength(a, b)
    decreases a
  {
    if IsObject(a) && IsObject(b) {
      NormsEqual(a, b);
      forall k | k in Keys(a) && k in Keys(b)
        ensures Norm(Get(a, k)) == Norm(Get(b, k)) <==>
                DeepEqual(Get(a, k), Get(b, k)) && !MeetsLength(Get(a, k), Get(b, k))
      {
        SameNormIffDeepEqual(Get(a, k), Get(b, k));
      }
      if !(a.Obj? && b.Arr? && LENGTH in a.fields) {
        ByKeys(a, b);
      }
    }
  }

  /** An array and an object with a length property can be equal in one direction only. */
  lemma LengthBreaksSymmetry()
    ensures DeepEqual(Obj(map[LENGTH := Num(1)]), Arr([Null])) && !DeepEqual(Arr([Null]), Obj(map[LENGTH := Num(1)]))
  {
    IndexCount(1);
    var o, a := Obj(map[LENGTH := Num(1)]), Arr([Null]);
    assert Keys(o) == {LENGTH};
    assert Get(a, LENGTH) == Num(1);
    assert Index(0) in Keys(a) && !Has(o, Index(0));
  }
}
