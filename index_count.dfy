/** The index-count executor: counts the entries of a countable index between a search key and an
    optional end key from two rank lookups, after converting the key expressions to the key
    columns' types, where a value out of a column's range short-circuits to a count of 0. */
module IndexCount {
  import opened Common

  datatype LookupType = EQ | GT | GTE | LT | LTE | OtherLookup(code: int)

  /** Storing an evaluated key expression into a key column: the value, or the range error the
      column's type raises (a value above its maximum, or below its minimum). */
  datatype KeyOutcome = Stored(value: NValue) | Overflow | Underflow

  /** A countable index, through its rank primitives: `counterLET(k, b)` and `counterGET(k, b)`
      are the ranks the index reports for key `k` with the "inclusive" flag `b`, `hasKey(k)`
      whether an entry has key `k`; `maxValue(i)` is the largest value of key column `i`'s type. */
  datatype CountableIndex = CountableIndex(
    keyColumnCount: nat,
    size: int,
    counterLET: (seq<NValue>, bool) -> int,
    counterGET: (seq<NValue>, bool) -> int,
    hasKey: seq<NValue> -> bool,
    maxValue: nat -> int)

  /** The plan node: key expressions (`None` for a missing one) and lookup types. */
  datatype IndexCountNode = IndexCountNode(
    searchKeys: seq<Option<Expr>>,
    endKeys: seq<Option<Expr>>,
    lookupType: LookupType,
    endType: LookupType)

  /** The planner marks a partial-key lookup as EQ; it must find the first entry with that
      prefix, i.e. be GTE. */
  function EffectiveLookup(lookup: LookupType, keyColumnCount: nat, numSearchKeys: nat): (r: LookupType)
    ensures r == GTE || r == lookup
    ensures r != lookup <==> lookup == EQ && keyColumnCount > numSearchKeys
  {
    if lookup == EQ && keyColumnCount > numSearchKeys then GTE else lookup
  }

  /** The index of the first key that could not be stored, or the number of keys. */
  function FirstFailure(outs: seq<KeyOutcome>): (k: nat)
    ensures k <= |outs|
    ensures forall i :: 0 <= i < k ==> outs[i].Stored?
    ensures k < |outs| ==> !outs[k].Stored?
    decreases |outs|
  {
    if outs == [] || !outs[0].Stored? then 0 else 1 + FirstFailure(outs[1..])
  }

  function StoredValues(outs: seq<KeyOutcome>): (vs: seq<NValue>)
    requires forall i :: 0 <= i < |outs| ==> outs[i].Stored?
    ensures |vs| == |outs| && forall i :: 0 <= i < |outs| ==> vs[i] == outs[i].value
  {
    seq(|outs|, i requires 0 <= i < |outs| => outs[i].value)
  }

  /** A key tuple of `width` columns whose first columns are `prefix` and the rest NULL. */
  function KeyOf(prefix: seq<NValue>, width: nat): (key: seq<NValue>)
    requires |prefix| <= width
    ensures |key| == width && key[..|prefix|] == prefix
    ensures forall i :: |prefix| <= i < width ==> key[i] == NullValue
  {
    prefix + seq(width - |prefix|, _ => NullValue)
  }

  /** The outcome of building a key: the count is 0 at once, or the key, with the flag telling
      whether its last column went out of range (search-key underflow, end-key overflow). */
  datatype KeyStage = ZeroCount | Key(key: seq<NValue>, outOfRange: bool)

  /** The search key: a range error on an EQ lookup or on a key before the last gives 0; on the
      last key of a range lookup, an overflow gives 0 and an underflow leaves the key's prefix. */
  function SearchStage(outs: seq<KeyOutcome>, lookup: LookupType, width: nat): KeyStage
    requires |outs| <= width
  {
    var k := FirstFailure(outs);
    if k == |outs| then Key(KeyOf(StoredValues(outs), width), false)
    else if lookup != EQ && k == |outs| - 1 then
      if outs[k].Overflow? then ZeroCount else Key(KeyOf(StoredValues(outs[..k]), width), true)
    else ZeroCount
  }

  /** The end key: a range error before the last key gives 0; on the last key an underflow gives
      0 and an overflow clamps the key to its column type's maximum. */
  function EndStage(outs: seq<KeyOutcome>, width: nat, maxValue: nat -> int): KeyStage
    requires |outs| <= width
  {
    var k := FirstFailure(outs);
    if k == |outs| then Key(KeyOf(StoredValues(outs), width), false)
    else if k == |outs| - 1 then
      if outs[k].Underflow? then ZeroCount
      else Key(KeyOf(StoredValues(outs[..k]) + [IntValue(maxValue(k))], width), true)
    else ZeroCount
  }

  /** `rkStart` and `leftIncluded`; `None` for a lookup type that is neither GT nor GTE. */
  function StartRank(ix: CountableIndex, lookup: LookupType, search: KeyStage, numSearchKeys: nat): Option<(int, int)>
    requires search.Key?
  {
    if search.outOfRange then Some((0, 0))
    else if lookup == GT then Some((ix.counterLET(search.key, true), 0))
    else if lookup == GTE then
      var base := if ix.hasKey(search.key) then (ix.counterLET(search.key, false), 1) else (ix.counterLET(search.key, true), 0);
      if ix.keyColumnCount > numSearchKeys then Some((base.0 + 1, 1)) else Some(base)
    else None
  }

  /** `rkEnd` and `rightIncluded`; `None` for an end type that is neither LT nor LTE. */
  function EndRank(ix: CountableIndex, endType: LookupType, end: Option<KeyStage>): Option<(int, int)>
    requires end.Some? ==> end.value.Key?
  {
    if end.None? then Some((ix.size, 1))
    else if end.value.outOfRange then Some((ix.counterGET(end.value.key, true), 0))
    else if endType == LT then Some((ix.counterGET(end.value.key, false), 0))
    else if endType == LTE then
      if ix.hasKey(end.value.key) then Some((ix.counterGET(end.value.key, true), 1)) else Some((ix.counterGET(end.value.key, false), 0))
    else None
  }

  /** What `p_execute` produces: `Some(count)` for the one output row, `None` when it returns false. */
  function CountOutcome(ix: CountableIndex, lookup: LookupType, endType: LookupType,
                        searchOuts: seq<KeyOutcome>, endOuts: seq<KeyOutcome>): Option<int>
    requires |searchOuts| <= ix.keyColumnCount && |endOuts| <= ix.keyColumnCount
  {
    var search := SearchStage(searchOuts, lookup, ix.keyColumnCount);
    if search.ZeroCount? then Some(0)
    else
      var end := if endOuts == [] then None else Some(EndStage(endOuts, ix.keyColumnCount, ix.maxValue));
      if end == Some(ZeroCount) then Some(0)
      else
        match StartRank(ix, lookup, search, |searchOuts|)
        case None => None
        case Some(start) =>
          match EndRank(ix, endType, end)
          case None => None
          case Some(stop) => Some(stop.0 - start.0 - 1 + start.1 + stop.1)
  }

  /** A range error on an EQ lookup, or on any search key but the last, counts nothing. */
  lemma SearchRangeErrorCountsZero(ix: CountableIndex, lookup: LookupType, endType: LookupType,
                                   searchOuts: seq<KeyOutcome>, endOuts: seq<KeyOutcome>, i: nat)
    requires |searchOuts| <= ix.keyColumnCount && |endOuts| <= ix.keyColumnCount
    requires i < |searchOuts| && !searchOuts[i].Stored? && forall j :: 0 <= j < i ==> searchOuts[j].Stored?
    requires lookup == EQ || i < |searchOuts| - 1 || searchOuts[i].Overflow?
    ensures CountOutcome(ix, lookup, endType, searchOuts, endOuts) == Some(0)
  {
    FirstFailureIs(searchOuts, i);
  }

  /** An underflowing last search key of a range lookup starts counting at rank 0, excluding
      the left end. */
  lemma SearchUnderflowStartsAtZero(ix: CountableIndex, lookup: LookupType, searchOuts: seq<KeyOutcome>)
    requires 0 < |searchOuts| <= ix.keyColumnCount && lookup != EQ
    requires searchOuts[|searchOuts| - 1].Underflow? && forall j :: 0 <= j < |searchOuts| - 1 ==> searchOuts[j].Stored?
    ensures var s := SearchStage(searchOuts, lookup, ix.keyColumnCount);
      s.Key? && StartRank(ix, lookup, s, |searchOuts|) == Some((0, 0))
  {
    FirstFailureIs(searchOuts, |searchOuts| - 1);
  }

  /** A range error on an end key before the last, or an underflow of the last, counts nothing
      (once the search key was built). */
  lemma EndRangeErrorCountsZero(ix: CountableIndex, lookup: LookupType, endType: LookupType,
                                searchOuts: seq<KeyOutcome>, endOuts: seq<KeyOutcome>, i: nat)
    requires |searchOuts| <= ix.keyColumnCount && |endOuts| <= ix.keyColumnCount
    requires i < |endOuts| && !endOuts[i].Stored? && forall j :: 0 <= j < i ==> endOuts[j].Stored?
    requires i < |endOuts| - 1 || endOuts[i].Underflow?
    ensures CountOutcome(ix, lookup, endType, searchOuts, endOuts) == Some(0)
  {
    FirstFailureIs(endOuts, i);
  }

  /** An overflowing last end key is clamped to its column type's maximum and counted with the
      inclusive GET rank, without adding the right end. */
  lemma EndOverflowClamps(ix: CountableIndex, endType: LookupType, endOuts: seq<KeyOutcome>)
    requires 0 < |endOuts| <= ix.keyColumnCount
    requires endOuts[|endOuts| - 1].Overflow? && forall j :: 0 <= j < |endOuts| - 1 ==> endOuts[j].Stored?
    ensures var n := |endOuts| - 1;
      var e := EndStage(endOuts, ix.keyColumnCount, ix.maxValue);
      && e.Key? && e.key[n] == IntValue(ix.maxValue(n))
      && (forall j :: 0 <= j < n ==> e.key[j] == endOuts[j].value)
      && EndRank(ix, endType, Some(e)) == Some((ix.counterGET(e.key, true), 0))
  {
    var n := |endOuts| - 1;
    FirstFailureIs(endOuts, n);
    var prefix := StoredValues(endOuts[..n]) + [IntValue(ix.maxValue(n))];
    var e := EndStage(endOuts, ix.keyColumnCount, ix.maxValue);
    assert e.key[..|prefix|] == prefix;
    assert e.key[n] == prefix[n];
  }

  /** With all keys in range the count is `rkEnd - rkStart - 1 + leftIncluded + rightIncluded`;
      a lookup type other than GT/GTE, or an end type other than LT/LTE, returns false. */
  lemma InRangeCount(ix: CountableIndex, lookup: LookupType, endType: LookupType,
                     searchOuts: seq<KeyOutcome>, endOuts: seq<KeyOutcome>)
    requires |searchOuts| <= ix.keyColumnCount && |endOuts| <= ix.keyColumnCount
    requires forall j :: 0 <= j < |searchOuts| ==> searchOuts[j].Stored?
    requires forall j :: 0 <= j < |endOuts| ==> endOuts[j].Stored?
    ensures var s := Key(KeyOf(StoredValues(searchOuts), ix.keyColumnCount), false);
      var e := if endOuts == [] then None else Some(Key(KeyOf(StoredValues(endOuts), ix.keyColumnCount), false));
      && (lookup != GT && lookup != GTE ==> CountOutcome(ix, lookup, endType, searchOuts, endOuts).None?)
      && (endOuts != [] && endType != LT && endType != LTE ==> CountOutcome(ix, lookup, endType, searchOuts, endOuts).None?)
      && (StartRank(ix, lookup, s, |searchOuts|).Some? && EndRank(ix, endType, e).Some? ==>
            var start := StartRank(ix, lookup, s, |searchOuts|).value;
            var stop := EndRank(ix, endType, e).value;
            CountOutcome(ix, lookup, endType, searchOuts, endOuts) == Some(stop.0 - start.0 - 1 + start.1 + stop.1))
  {
    FirstFailureIs(searchOuts, |searchOuts|);
    FirstFailureIs(endOuts, |endOuts|);
  }

  lemma {:induction false} FirstFailureIs(outs: seq<KeyOutcome>, k: nat)
    requires k <= |outs| && (forall i :: 0 <= i < k ==> outs[i].Stored?) && (k < |outs| ==> !outs[k].Stored?)
    ensures FirstFailure(outs) == k
    decreases k
  {
    if k > 0 {
      FirstFailureIs(outs[1..], k - 1);
    }
  }

  class IndexCountExecutor {
    const index: CountableIndex
    var searchKeyExprs: seq<Expr>
    var endKeyExprs: seq<Expr>
    var lookupType: LookupType
    var endType: LookupType
    var searchKey: array<NValue>
    var endKey: array<NValue>
    /** the output temp table: one BIGINT count per execution */
    var output: seq<int>

    predicate Valid()
      reads this
    {
      && searchKey.Length == index.keyColumnCount && endKey.Length == index.keyColumnCount
      && searchKey != endKey
      && |searchKeyExprs| <= index.keyColumnCount && |endKeyExprs| <= index.keyColumnCount
    }

    constructor(index: CountableIndex)
      ensures this.index == index && output == [] && searchKeyExprs == [] && endKeyExprs == []
      ensures Valid() && fresh(searchKey) && fresh(endKey)
    {
      this.index := index;
      searchKeyExprs := [];
      endKeyExprs := [];
      lookupType := EQ;
      endType := LT;
      searchKey := new NValue[index.keyColumnCount](_ => NullValue);
      endKey := new NValue[index.keyColumnCount](_ => NullValue);
      output := [];
    }

    /** `p_init`: refuses a node with a missing key expression, takes its keys and lookup types,
        and promotes a partial-key EQ lookup to GTE. */
    method Init(node: IndexCountNode) returns (ok: bool)
      requires Valid()
      requires |node.searchKeys| <= index.keyColumnCount && |node.endKeys| <= index.keyColumnCount
      modifies this
      ensures Valid() && output == old(output) && searchKey == old(searchKey) && endKey == old(endKey)
      ensures ok <==> (forall i :: 0 <= i < |node.searchKeys| ==> node.searchKeys[i].Some?) &&
                      (forall i :: 0 <= i < |node.endKeys| ==> node.endKeys[i].Some?)
      ensures ok ==>
        && |searchKeyExprs| == |node.searchKeys| && (forall i :: 0 <= i < |node.searchKeys| ==> Some(searchKeyExprs[i]) == node.searchKeys[i])
        && |endKeyExprs| == |node.endKeys| && (forall i :: 0 <= i < |node.endKeys| ==> Some(endKeyExprs[i]) == node.endKeys[i])
        && lookupType == EffectiveLookup(node.lookupType, index.keyColumnCount, |node.searchKeys|)
        && endType == (if node.endKeys != [] then node.endType else old(endType))
      ensures !ok ==> (searchKeyExprs == old(searchKeyExprs) && endKeyExprs == old(endKeyExprs) &&
        lookupType == old(lookupType) && endType == old(endType))
    {
      var searches: seq<Expr> := [];
      for ctr := 0 to |node.searchKeys|
        invariant |searches| == ctr && forall i :: 0 <= i < ctr ==> node.searchKeys[i] == Some(searches[i])
      {
        if node.searchKeys[ctr].None? {
          return false;
        }
        searches := searches + [node.searchKeys[ctr].value];
      }
      var ends: seq<Expr> := [];
      for ctr := 0 to |node.endKeys|
        invariant |ends| == ctr && forall i :: 0 <= i < ctr ==> node.endKeys[i] == Some(ends[i])
      {
        if node.endKeys[ctr].None? {
          return false;
        }
        ends := ends + [node.endKeys[ctr].value];
      }
      searchKeyExprs := searches;
      endKeyExprs := ends;
      lookupType := node.lookupType;
      if |ends| != 0 {
        endType := node.endType;
      }
      if lookupType == EQ && searchKey.Length > |searches| {
        lookupType := GTE;
      }
      return true;
    }

    /** The key outcomes of this execution: `store(e, i)` evaluates key expression `e` and stores
        it into key column `i`. */
    function Outcomes(exprs: seq<Expr>, store: (Expr, nat) -> KeyOutcome): (outs: seq<KeyOutcome>)
      ensures |outs| == |exprs| && forall i :: 0 <= i < |exprs| ==> outs[i] == store(exprs[i], i)
    {
      seq(|exprs|, i requires 0 <= i < |exprs| => store(exprs[i], i))
    }

    /** `p_execute`: exactly one output row when it returns true, its count given by
        `CountOutcome`; nothing when it returns false. */
    method Execute(store: (Expr, nat) -> KeyOutcome) returns (ok: bool)
      requires Valid()
      modifies this`output, searchKey, endKey
      ensures Valid()
      ensures var r := CountOutcome(index, lookupType, endType, Outcomes(searchKeyExprs, store), Outcomes(endKeyExprs, store));
        ok == r.Some? && output == old(output) + (if ok then [r.value] else [])
    {
      var so := Outcomes(searchKeyExprs, store);
      var eo := Outcomes(endKeyExprs, store);
      var search := FillSearchKey(searchKey, so, lookupType);
      if search.ZeroCount? {
        output := output + [0];
        return true;
      }
      var searchKeyUnderflow := search.outOfRange;
      var endKeyOverflow := false;
      ghost var end: Option<KeyStage> := None;
      if |endKeyExprs| != 0 {
        var e := FillEndKey(endKey, eo, index.maxValue);
        if e.ZeroCount? {
          output := output + [0];
          return true;
        }
        endKeyOverflow := e.outOfRange;
        end := Some(e);
      }
      assert searchKey[..] == search.key;
      assert end == if |endKeyExprs| != 0 then Some(Key(endKey[..], endKeyOverflow)) else None;

      var startOk, rkStart, leftIncluded := StartRankOf(index, lookupType, searchKey[..], searchKeyUnderflow, |searchKeyExprs|);
      if !startOk {
        return false;
      }
      var endOk, rkEnd, rightIncluded := EndRankOf(index, endType, endKey[..], |endKeyExprs| != 0, endKeyOverflow);
      if !endOk {
        return false;
      }
      var rkRes := rkEnd - rkStart - 1 + leftIncluded + rightIncluded;
      output := output + [rkRes];
      return true;
    }
  }

  /** The start rank of `p_execute`: the underflow case, GT, GTE with the partial-key step past
      the prefix, and false for any other lookup type. */
  method StartRankOf(ix: CountableIndex, lookup: LookupType, key: seq<NValue>, underflow: bool, numSearchKeys: nat)
    returns (ok: bool, rkStart: int, leftIncluded: int)
    ensures var r := StartRank(ix, lookup, Key(key, underflow), numSearchKeys);
      ok == r.Some? && (ok ==> (rkStart, leftIncluded) == r.value)
  {
    rkStart, leftIncluded := 0, 0;
    if !underflow {
      if lookup == GT {
        rkStart := ix.counterLET(key, true);
      } else if lookup == GTE {
        if ix.hasKey(key) {
          leftIncluded := 1;
          rkStart := ix.counterLET(key, false);
        } else {
          rkStart := ix.counterLET(key, true);
        }
        if ix.keyColumnCount > numSearchKeys {
          rkStart := rkStart + 1;
          leftIncluded := 1;
        }
      } else {
        return false, rkStart, leftIncluded;
      }
    }
    return true, rkStart, leftIncluded;
  }

  /** The end rank of `p_execute`: the index size without end keys, the clamped key after an
      overflow, LT, LTE, and false for any other end type. */
  method EndRankOf(ix: CountableIndex, endType: LookupType, key: seq<NValue>, hasEndKeys: bool, overflow: bool)
    returns (ok: bool, rkEnd: int, rightIncluded: int)
    ensures var r := EndRank(ix, endType, if hasEndKeys then Some(Key(key, overflow)) else None);
      ok == r.Some? && (ok ==> (rkEnd, rightIncluded) == r.value)
  {
    rkEnd, rightIncluded := 0, 0;
    if hasEndKeys {
      if overflow {
        rkEnd := ix.counterGET(key, true);
      } else if endType == LT {
        rkEnd := ix.counterGET(key, false);
      } else if endType == LTE {
        if ix.hasKey(key) {
          rkEnd := ix.counterGET(key, true);
          rightIncluded := 1;
        } else {
          rkEnd := ix.counterGET(key, false);
        }
      } else {
        return false, rkEnd, rightIncluded;
      }
    } else {
      rkEnd := ix.size;
      rightIncluded := 1;
    }
    return true, rkEnd, rightIncluded;
  }

  /** The search-key loop of `p_execute`: stores the converted keys slot by slot into a cleared
      key, stopping at the first one out of its column's range. */
  method FillSearchKey(key: array<NValue>, outs: seq<KeyOutcome>, lookup: LookupType) returns (stage: KeyStage)
    requires |outs| <= key.Length
    modifies key
    ensures stage == SearchStage(outs, lookup, key.Length)
    ensures stage.Key? ==> key[..] == stage.key
  {
    ClearKey(key);
    var ctr := 0;
    while ctr < |outs|
      invariant 0 <= ctr <= |outs| && forall j :: 0 <= j < ctr ==> outs[j].Stored?
      invariant forall j :: 0 <= j < ctr ==> key[j] == outs[j].value
      invariant forall j :: ctr <= j < key.Length ==> key[j] == NullValue
    {
      var candidate := outs[ctr];
      if !candidate.Stored? {
        FirstFailureIs(outs, ctr);
        if lookup != EQ && ctr == |outs| - 1 && candidate.Underflow? {
          KeyOfPointwise(key[..], StoredValues(outs[..ctr]));
          return Key(key[..], true);
        }
        return ZeroCount;
      }
      key[ctr] := candidate.value;
      ctr := ctr + 1;
    }
    FirstFailureIs(outs, |outs|);
    KeyOfPointwise(key[..], StoredValues(outs));
    return Key(key[..], false);
  }

  /** The end-key loop of `p_execute`: like the search key, except that an overflowing last key
      is clamped to its column type's maximum. */
  method FillEndKey(key: array<NValue>, outs: seq<KeyOutcome>, maxValue: nat -> int) returns (stage: KeyStage)
    requires |outs| <= key.Length
    modifies key
    ensures stage == EndStage(outs, key.Length, maxValue)
    ensures stage.Key? ==> key[..] == stage.key
  {
    ClearKey(key);
    var ctr := 0;
    while ctr < |outs|
      invariant 0 <= ctr <= |outs| && forall j :: 0 <= j < ctr ==> outs[j].Stored?
      invariant forall j :: 0 <= j < ctr ==> key[j] == outs[j].value
      invariant forall j :: ctr <= j < key.Length ==> key[j] == NullValue
    {
      var candidate := outs[ctr];
      if !candidate.Stored? {
        FirstFailureIs(outs, ctr);
        if ctr == |outs| - 1 && candidate.Overflow? {
          key[ctr] := IntValue(maxValue(ctr));
          KeyOfPointwise(key[..], StoredValues(outs[..ctr]) + [IntValue(maxValue(ctr))]);
          return Key(key[..], true);
        }
        return ZeroCount;
      }
      key[ctr] := candidate.value;
      ctr := ctr + 1;
    }
    FirstFailureIs(outs, |outs|);
    KeyOfPointwise(key[..], StoredValues(outs));
    return Key(key[..], false);
  }

  /** `setAllNulls`. */
  method ClearKey(key: array<NValue>)
    modifies key
    ensures forall j :: 0 <= j < key.Length ==> key[j] == NullValue
  {
    for i := 0 to key.Length
      invariant forall j :: 0 <= j < i ==> key[j] == NullValue
    {
      key[i] := NullValue;
    }
  }

  /** A key tuple is `KeyOf` the prefix it starts with when every later column is NULL. */
  lemma KeyOfPointwise(key: seq<NValue>, prefix: seq<NValue>)
    requires |prefix| <= |key|
    requires forall j :: 0 <= j < |prefix| ==> key[j] == prefix[j]
    requires forall j :: |prefix| <= j < |key| ==> key[j] == NullValue
    ensures key == KeyOf(prefix, |key|)
  {
    var k := KeyOf(prefix, |key|);
    forall j | 0 <= j < |key| ensures key[j] == k[j] {
      if j < |prefix| {
        assert k[j] == k[..|prefix|][j];
      }
    }
  }
}
