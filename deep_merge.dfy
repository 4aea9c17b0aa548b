/** objectMerge: the destructive deep merge of one key-value tree into another. */
module DeepMerge {
  import opened JsValue

  /** The guard objectMerge tests before it recurses into a key: both values have
      `typeof` 'object' and neither is an array. `null` passes it on either side. */
  predicate Recurses(x: Value, y: Value) {
    IsNonArrayObject(x) && IsNonArrayObject(y)
  }

  /** objectMerge(base, add) runs to completion. The only way it throws is by writing a
      key into `null`: a `null` base meets a non-empty object in `add`, at any depth. */
  predicate Mergeable(base: Value, add: Value)
    decreases add
  {
    && Recurses(base, add)
    && (add.Obj? ==>
          if base.Obj? then
            forall k :: k in add.fields && Recurses(Get(base.fields, k), add.fields[k]) ==>
              Mergeable(Get(base.fields, k), add.fields[k])
          else
            add.fields == map[])
  }

  /** The value objectMerge(base, add) returns, that is, base as it stands after the merge.
      Every key of `add` is assigned in `base`: the recursive merge of the two values
      when the guard holds, `add`'s value verbatim otherwise. A `null` on either side
      is iterated as an empty record, so the base comes back unchanged. */
  function Merge(base: Value, add: Value): (r: Value)
    requires Mergeable(base, add)
    ensures IsNonArrayObject(r)
    ensures r.Obj? <==> base.Obj?
    decreases add
  {
    if base.Obj? && add.Obj? then
      Obj(map k | k in base.fields.Keys + add.fields.Keys ::
            if k !in add.fields then base.fields[k]
            else if Recurses(Get(base.fields, k), add.fields[k]) then Merge(Get(base.fields, k), add.fields[k])
            else add.fields[k])
    else
      base
  }

  /** objectMerge as the source runs it: a loop over the keys of `add` that assigns
      `base[key]` one key at a time, recursing for nested records. */
  method ObjectMerge(base: Value, add: Value) returns (r: Value)
    requires Mergeable(base, add)
    ensures r == Merge(base, add)
    decreases add
  {
    if !(base.Obj? && add.Obj?) {
      // for…in over null visits no key; a null base with an empty add stays null
      return base;
    }
    var a := add.fields;
    var cur := base.fields;
    var todo := a.Keys;
    ghost var merged := Merge(base, add).fields;
    while todo != {}
      invariant todo <= a.Keys
      invariant cur.Keys == base.fields.Keys + (a.Keys - todo)
      invariant forall k :: k in cur ==> cur[k] == if k in a && k !in todo then merged[k] else base.fields[k]
      decreases todo
    {
      var k :| k in todo;
      var was := Get(cur, k);
      if IsNonArrayObject(was) && IsNonArrayObject(a[k]) {
        var v := ObjectMerge(was, a[k]);
        cur := cur[k := v];
      } else {
        cur := cur[k := a[k]];
      }
      todo := todo - {k};
    }
    r := Obj(cur);
  }

  /** Each key of `add` is handled in one of two ways, and the keys of `base` that
      `add` lacks keep their values; the merged record has exactly the keys of both. */
  lemma MergeAt(base: Value, add: Value, k: string)
    requires Mergeable(base, add) && base.Obj? && add.Obj?
    ensures Merge(base, add).fields.Keys == base.fields.Keys + add.fields.Keys
    ensures k in add.fields && Recurses(Get(base.fields, k), add.fields[k]) ==>
              Merge(base, add).fields[k] == Merge(Get(base.fields, k), add.fields[k])
    ensures k in add.fields && !Recurses(Get(base.fields, k), add.fields[k]) ==>
              Merge(base, add).fields[k] == add.fields[k]
    ensures k in base.fields && k !in add.fields ==> Merge(base, add).fields[k] == base.fields[k]
  {
  }

  /** An array in `add` replaces whatever `base` holds under that key, whole: arrays are
      never merged element by element nor concatenated. */
  lemma ArrayReplacedWhole(base: Value, add: Value, k: string)
    requires Mergeable(base, add) && base.Obj? && add.Obj?
    requires k in add.fields && add.fields[k].Arr?
    ensures Merge(base, add).fields[k] == add.fields[k]
  {
  }

  /** A `null` in `add` does not overwrite a record in `base`: the guard admits `null`,
      and the recursive call iterates over no key, so the base record survives. */
  lemma NullKeepsBaseRecord(base: Value, add: Value, k: string)
    requires Mergeable(base, add) && base.Obj? && add.Obj?
    requires k in add.fields && add.fields[k].Null?
    requires k in base.fields && base.fields[k].Obj?
    ensures Merge(base, add).fields[k] == base.fields[k]
  {
  }

  /** Merging an empty record changes nothing. */
  lemma MergeEmptyIsIdentity(base: Value)
    requires IsNonArrayObject(base)
    ensures Mergeable(base, Obj(map[]))
    ensures Merge(base, Obj(map[])) == base
  {
  }

  /** Any record or `null` can be merged into itself without throwing. */
  lemma {:induction false} MergeableSelf(v: Value)
    requires IsNonArrayObject(v)
    ensures Mergeable(v, v)
    decreases v
  {
    if v.Obj? {
      forall k | k in v.fields && Recurses(Get(v.fields, k), v.fields[k])
        ensures Mergeable(Get(v.fields, k), v.fields[k])
      {
        MergeableSelf(v.fields[k]);
      }
    }
  }

  /** Merging a record into itself gives it back. */
  lemma {:induction false} MergeSelf(v: Value)
    requires IsNonArrayObject(v)
    ensures Mergeable(v, v) && Merge(v, v) == v
    decreases v
  {
    MergeableSelf(v);
    if v.Obj? {
      forall k | k in v.fields
        ensures Merge(v, v).fields[k] == v.fields[k]
      {
        if Recurses(v.fields[k], v.fields[k]) {
          MergeSelf(v.fields[k]);
        }
      }
      assert Merge(v, v).fields == v.fields;
    }
  }

  /** The result of a merge can take the same `add` again without throwing. */
  lemma {:induction false} MergeableAgain(base: Value, add: Value)
    requires Mergeable(base, add)
    ensures Mergeable(Merge(base, add), add)
    decreases add
  {
    var r := Merge(base, add);
    if base.Obj? && add.Obj? {
      forall k | k in add.fields && Recurses(Get(r.fields, k), add.fields[k])
        ensures Mergeable(Get(r.fields, k), add.fields[k])
      {
        var b := Get(base.fields, k);
        if Recurses(b, add.fields[k]) {
          MergeableAgain(b, add.fields[k]);
        } else {
          MergeableSelf(add.fields[k]);
        }
      }
    } else if base.Null? && add.Obj? {
      MergeEmptyIsIdentity(base);
    }
  }

  /** Merge is idempotent by value: merging the same `add` a second time changes nothing. */
  lemma {:induction false} MergeIdempotent(base: Value, add: Value)
    requires Mergeable(base, add)
    ensures Mergeable(Merge(base, add), add)
    ensures Merge(Merge(base, add), add) == Merge(base, add)
    decreases add
  {
    MergeableAgain(base, add);
    var r := Merge(base, add);
    if base.Obj? && add.Obj? {
      forall k | k in add.fields
        ensures Merge(r, add).fields[k] == r.fields[k]
      {
        var b := Get(base.fields, k);
        if Recurses(b, add.fields[k]) {
          MergeIdempotent(b, add.fields[k]);
        } else if IsNonArrayObject(add.fields[k]) {
          MergeSelf(add.fields[k]);
        }
      }
      assert Merge(r, add).fields == r.fields;
    }
  }

  /** The value reached from `v` by following the keys of `p` through nested records. */
  function Lookup(v: Value, p: seq<string>): (r: Option<Value>)
    ensures p == [] ==> r == Some(v)
    decreases p
  {
    if p == [] then Some(v)
    else if v.Obj? && p[0] in v.fields then Lookup(v.fields[p[0]], p[1..])
    else None
  }

  /** Every leaf of `add` (a value that is not a record or `null`: a scalar, an array or
      `undefined`) ends up at the same place in the result. */
  lemma {:induction false} AddLeafWins(base: Value, add: Value, p: seq<string>)
    requires Mergeable(base, add)
    requires Lookup(add, p).Some? && !IsNonArrayObject(Lookup(add, p).value)
    ensures Lookup(Merge(base, add), p) == Lookup(add, p)
    decreases p
  {
    var k := p[0];
    if base.Obj? {
      var b := Get(base.fields, k);
      if Recurses(b, add.fields[k]) {
        AddLeafWins(b, add.fields[k], p[1..]);
      }
    }
  }

  /** A path of `base` is left alone, however deep, when `add` stops short of it: the
      record `add` holds at the first `j` keys of `p` lacks the next key `p[j]`. */
  lemma {:induction false} UntouchedPathKept(base: Value, add: Value, p: seq<string>, j: nat)
    requires Mergeable(base, add)
    requires j < |p|
    requires Lookup(add, p[..j]).Some? && Lookup(add, p[..j]).value.Obj?
    requires p[j] !in Lookup(add, p[..j]).value.fields
    ensures Lookup(Merge(base, add), p) == Lookup(base, p)
    decreases p
  {
    if base.Obj? && j > 0 {
      var k := p[0];
      assert p[..j] == [k] + p[1..][..j - 1];
      var b := Get(base.fields, k);
      if Recurses(b, add.fields[k]) {
        UntouchedPathKept(b, add.fields[k], p[1..], j - 1);
      } else {
        assert Lookup(add.fields[k], p[1..][..j - 1]) == Lookup(add, p[..j]);
        LookupPastMissingKey(add.fields[k], p[1..], j - 1);
      }
    }
  }

  /** A path that leaves a record through a key the record lacks leads nowhere. */
  lemma {:induction false} LookupPastMissingKey(v: Value, p: seq<string>, j: nat)
    requires j < |p|
    requires Lookup(v, p[..j]).Some? && Lookup(v, p[..j]).value.Obj?
    requires p[j] !in Lookup(v, p[..j]).value.fields
    ensures Lookup(v, p).None?
    decreases p
  {
    if j > 0 {
      assert p[..j] == [p[0]] + p[1..][..j - 1];
      LookupPastMissingKey(v.fields[p[0]], p[1..], j - 1);
    }
  }
}
