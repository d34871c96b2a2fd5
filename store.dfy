/**
 * The per-evaluation parameter value store: a binding table from parameter
 * to string value, kept in a linked hash map so that iteration follows the
 * order in which keys were first put.
 *
 * `Store` is the value of that table; `SubmitResult` is the decision ladder
 * of `submit` on that value, and `DefaultParameterValueStore` is the class
 * that updates its map in place and is proved to follow `SubmitResult`.
 */
module ValueStore {
  import opened Params

  /** The map's content. A key may be mapped to null (`None`). */
  type Bindings = map<ParamId, Option<string>>

  /** `Map.get`: null both for a missing key and for a key mapped to null. */
  function Lookup(m: Bindings, id: ParamId): (r: Option<string>)
    ensures r.Some? ==> id in m && m[id] == r
    ensures r == None <==> id !in m || m[id] == None
  {
    if id in m then m[id] else None
  }

  /** The linked hash map: its bindings and its keys in insertion order. */
  datatype Store = Store(bindings: Bindings, order: seq<ParamId>)

  /** The keys in `order` are exactly the bound keys, each listed once. */
  ghost predicate WellFormed(s: Store) {
    (forall k :: k in s.bindings <==> k in s.order) &&
    (forall i, j :: 0 <= i < j < |s.order| ==> s.order[i] != s.order[j])
  }

  /**
   * `Map.put`: a new key goes to the end of the order; a key that is already
   * present keeps its place and only its value changes.
   */
  function Put(s: Store, id: ParamId, v: Option<string>): (r: Store)
    ensures WellFormed(s) ==> WellFormed(r)
    ensures r.bindings.Keys == s.bindings.Keys + {id} && r.bindings[id] == v
    ensures forall k :: k in s.bindings && k != id ==> r.bindings[k] == s.bindings[k]
    ensures id in s.bindings ==> r.order == s.order
    ensures id !in s.bindings ==> r.order == s.order + [id]
  {
    Store(s.bindings[id := v], if id in s.bindings then s.order else s.order + [id])
  }

  datatype Outcome = Outcome(accepted: bool, store: Store)

  /**
   * The decision ladder of `submit` on the value of the store: wildcard,
   * re-submission of the stored value, first binding of an unbound parameter
   * when every constraint accepts, and conflict otherwise.
   */
  function SubmitResult(s: Store, p: Parameter, v: Option<string>): (r: Outcome)
    // nothing changes unless the value is accepted, and only p's entry can change
    ensures !r.accepted ==> r.store == s
    ensures WellFormed(s) ==> WellFormed(r.store)
    ensures forall k :: k != p.id ==> Lookup(r.store.bindings, k) == Lookup(s.bindings, k)
    ensures forall k :: k in s.bindings ==> k in r.store.bindings
    ensures r.store.order == s.order || r.store.order == s.order + [p.id]
    // a wildcard is accepted and stores nothing
    ensures IsWildcard(p) ==> r.accepted && r.store == s
    // the stored value (null included) is confirmed without change
    ensures Lookup(s.bindings, p.id) == v ==> r.accepted && r.store == s
    // a parameter bound to a non-null value keeps it; any other value conflicts
    ensures Lookup(s.bindings, p.id).Some? ==>
              Lookup(r.store.bindings, p.id) == Lookup(s.bindings, p.id) &&
              (r.accepted <==> IsWildcard(p) || v == Lookup(s.bindings, p.id))
    // an unbound parameter binds iff every constraint accepts, to the transposed value
    ensures !IsWildcard(p) && Lookup(s.bindings, p.id) == None && v.Some? ==>
              (r.accepted <==> SatisfiesAll(p.constraints, v.value)) &&
              (r.accepted ==> r.store == Put(s, p.id, Transposed(p.transpositions, v)))
  {
    var stored := Lookup(s.bindings, p.id);
    if IsWildcard(p) then Outcome(true, s)
    else if stored == v then Outcome(true, s)
    else if stored == None then
      if SatisfiesAll(p.constraints, v.value)
      then Outcome(true, Put(s, p.id, Transposed(p.transpositions, v)))
      else Outcome(false, s)
    else Outcome(false, s)
  }

  class DefaultParameterValueStore {
    /** The linked hash map's bindings. */
    var bindings: Bindings
    /** The linked hash map's keys in insertion order. */
    var order: seq<ParamId>

    function State(): Store
      reads this
    {
      Store(bindings, order)
    }

    ghost predicate Valid()
      reads this
    {
      WellFormed(State())
    }

    constructor ()
      ensures Valid() && bindings == map[] && order == []
    {
      bindings := map[];
      order := [];
    }

    /** The bound value, or None when unbound; reading changes nothing. */
    function Retrieve(p: Parameter): (r: Option<string>)
      reads this
      ensures r.Some? ==> p.id in bindings && bindings[p.id] == r
      ensures r == None <==> p.id !in bindings || bindings[p.id] == None
    {
      Lookup(bindings, p.id)
    }

    /** The same lookup as `Retrieve`. */
    function Get(p: Parameter): (r: Option<string>)
      reads this
      ensures r == Retrieve(p)
    {
      Lookup(bindings, p.id)
    }

    /**
     * Offers `value` for `p`. Every constraint is evaluated, without
     * stopping at the first that rejects; transpositions are applied in
     * order and the result is put into the map.
     */
    method Submit(p: Parameter, value: Option<string>) returns (result: bool)
      requires Valid()
      modifies this
      ensures Valid()
      ensures Outcome(result, State()) == SubmitResult(old(State()), p, value)
    {
      result := false;
      var stored := Lookup(bindings, p.id);
      if p.name == Wildcard {
        result := true;
      } else if stored == value {
        result := true;
      } else if stored == None {
        var candidate := value.value;
        result := true;
        var i := 0;
        while i < |p.constraints|
          invariant 0 <= i <= |p.constraints|
          invariant result == SatisfiesAll(p.constraints[..i], candidate)
        {
          if !p.constraints[i](candidate) {
            result := false;
          }
          i := i + 1;
        }
        assert p.constraints[..i] == p.constraints;
        if result {
          var transposed := value;
          var j := 0;
          while j < |p.transpositions|
            invariant 0 <= j <= |p.transpositions|
            invariant transposed == Transposed(p.transpositions[..j], value)
          {
            assert p.transpositions[..j + 1][..j] == p.transpositions[..j];
            transposed := p.transpositions[j](transposed);
            j := j + 1;
          }
          assert p.transpositions[..j] == p.transpositions;
          if p.id !in bindings {
            order := order + [p.id];
          }
          bindings := bindings[p.id := transposed];
          result := true;
        }
      }
    }

    /** The entries in insertion order, each key with its current value. */
    method Iterator() returns (entries: seq<(ParamId, Option<string>)>)
      requires Valid()
      ensures |entries| == |order|
      ensures forall i :: 0 <= i < |order| ==> entries[i] == (order[i], bindings[order[i]])
    {
      entries := [];
      var i := 0;
      while i < |order|
        invariant 0 <= i <= |order|
        invariant |entries| == i
        invariant forall k :: 0 <= k < i ==> entries[k] == (order[k], bindings[order[k]])
      {
        entries := entries + [(order[i], bindings[order[i]])];
        i := i + 1;
      }
    }
  }

  /** One call of `submit`, as a value. */
  datatype Submission = Submission(param: Parameter, value: Option<string>)

  /** The store after a sequence of calls of `submit`, whatever each returned. */
  function SubmitAll(s: Store, subs: seq<Submission>): Store
    decreases |subs|
  {
    if subs == [] then s
    else SubmitAll(SubmitResult(s, subs[0].param, subs[0].value).store, subs[1..])
  }

  /** For the life of a store, a value bound to a non-null string never changes. */
  lemma {:induction false} BindingsNeverChange(s: Store, subs: seq<Submission>, id: ParamId)
    requires Lookup(s.bindings, id).Some?
    ensures Lookup(SubmitAll(s, subs).bindings, id) == Lookup(s.bindings, id)
    decreases |subs|
  {
    if subs != [] {
      var next := SubmitResult(s, subs[0].param, subs[0].value).store;
      BindingsNeverChange(next, subs[1..], id);
    }
  }

  /**
   * For the life of a store, iteration order only grows at the end: the
   * keys put so far keep their positions and the map stays well formed.
   */
  lemma {:induction false} OrderOnlyGrows(s: Store, subs: seq<Submission>)
    requires WellFormed(s)
    ensures WellFormed(SubmitAll(s, subs))
    ensures s.order <= SubmitAll(s, subs).order
    ensures s.bindings.Keys <= SubmitAll(s, subs).bindings.Keys
    decreases |subs|
  {
    if subs != [] {
      var next := SubmitResult(s, subs[0].param, subs[0].value).store;
      OrderOnlyGrows(next, subs[1..]);
    }
  }

  /**
   * When the transpositions leave an accepted value as it is, submitting it
   * again is accepted and changes nothing.
   */
  lemma ResubmitIsIdempotent(s: Store, p: Parameter, v: Option<string>)
    requires SubmitResult(s, p, v).accepted
    requires Transposed(p.transpositions, v) == v
    ensures var s1 := SubmitResult(s, p, v).store;
            SubmitResult(s1, p, v) == Outcome(true, s1) &&
            (IsWildcard(p) || Lookup(s1.bindings, p.id) == v)
  {
  }

  /**
   * The limitation the source marks with a FIXME: once a transposition has
   * changed an accepted value, submitting the same raw value again is a
   * conflict.
   */
  lemma TranspositionBreaksResubmission(s: Store, p: Parameter, v: Option<string>)
    requires !IsWildcard(p) && Lookup(s.bindings, p.id) == None && v.Some?
    requires SatisfiesAll(p.constraints, v.value)
    requires Transposed(p.transpositions, v).Some? && Transposed(p.transpositions, v) != v
    ensures var r1 := SubmitResult(s, p, v);
            r1.accepted && !SubmitResult(r1.store, p, v).accepted
  {
  }

  /**
   * A condition that binds a parameter and then fails leaves the binding in
   * place: a later alternative that offers another value for the same
   * parameter conflicts with it.
   */
  lemma StaleBindingConflicts(s: Store, p: Parameter, v1: Option<string>, v2: Option<string>)
    requires !IsWildcard(p) && Lookup(s.bindings, p.id) == None && v1.Some?
    requires SatisfiesAll(p.constraints, v1.value)
    requires Transposed(p.transpositions, v1).Some? && v2 != Transposed(p.transpositions, v1)
    ensures var r1 := SubmitResult(s, p, v1);
            var r2 := SubmitResult(r1.store, p, v2);
            r1.accepted && !r2.accepted && r2.store == r1.store
  {
  }

  /**
   * A transposition that yields null leaves the key in the map with a null
   * value; the parameter then counts as unbound, and the next accepted value
   * takes the key's original place in the iteration order.
   */
  lemma NullTranspositionLeavesUnbound(s: Store, p: Parameter, v: Option<string>, w: Option<string>)
    requires WellFormed(s)
    requires !IsWildcard(p) && Lookup(s.bindings, p.id) == None && v.Some? && w.Some?
    requires SatisfiesAll(p.constraints, v.value) && SatisfiesAll(p.constraints, w.value)
    requires Transposed(p.transpositions, v) == None
    ensures var s1 := SubmitResult(s, p, v).store;
            var r2 := SubmitResult(s1, p, w);
            p.id in s1.bindings && Lookup(s1.bindings, p.id) == None &&
            r2.accepted && Lookup(r2.store.bindings, p.id) == Transposed(p.transpositions, w) &&
            r2.store.order == s1.order
  {
  }

  /**
   * For an unbound parameter, one constraint that rejects the candidate makes
   * `submit` reject it and leave the store unchanged, whatever the
   * constraints before and after it say.
   */
  lemma FailingConstraintRejectsSubmit(
    s: Store, p: Parameter, before: seq<Constraint>, c: Constraint, after: seq<Constraint>, v: Option<string>)
    requires !IsWildcard(p) && Lookup(s.bindings, p.id) == None && v.Some?
    requires p.constraints == before + [c] + after && !c(v.value)
    ensures !SubmitResult(s, p, v).accepted && SubmitResult(s, p, v).store == s
  {
    OneFailingConstraintRejects(before, c, after, v.value);
  }
}
