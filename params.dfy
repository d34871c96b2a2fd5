/**
 * Parameters as the parameter value store sees them: a name, an ordered
 * sequence of constraints that a candidate value must satisfy, and an ordered
 * sequence of transpositions that normalise a value once it is accepted.
 * The rewrite event and evaluation context that the source passes to every
 * constraint and transposition are dropped: both become functions of the
 * value alone.
 */
module Params {

  /** A Java reference that may be null. */
  datatype Option<T> = None | Some(value: T)

  /** Identity of a parameter as a map key (Java `equals`/`hashCode`). */
  type ParamId = nat

  /** `Constraint<String>.isSatisfiedBy`, on a non-null candidate value. */
  type Constraint = string -> bool

  /** `Transposition<String>.transpose`; its argument and result may be null. */
  type Transposition = Option<string> -> Option<string>

  datatype Parameter = Parameter(
    id: ParamId,
    name: string,
    constraints: seq<Constraint>,
    transpositions: seq<Transposition>)

  /** The parameter name that binds anything and stores nothing. */
  const Wildcard: string := "*"

  predicate IsWildcard(p: Parameter) {
    p.name == Wildcard
  }

  /** Every constraint of `cs` accepts `v`. */
  predicate SatisfiesAll(cs: seq<Constraint>, v: string) {
    forall i :: 0 <= i < |cs| ==> cs[i](v)
  }

  /**
   * The transpositions applied left to right: the last one is applied last,
   * each consuming the previous one's output.
   */
  function Transposed(ts: seq<Transposition>, v: Option<string>): Option<string> {
    if ts == [] then v else ts[|ts| - 1](Transposed(ts[..|ts| - 1], v))
  }

  /** An independent reference definition: feed `v` through the head first. */
  function Pipeline(ts: seq<Transposition>, v: Option<string>): Option<string> {
    if ts == [] then v else Pipeline(ts[1..], ts[0](v))
  }

  lemma {:induction false} PipelineSnoc(ts: seq<Transposition>, t: Transposition, v: Option<string>)
    ensures Pipeline(ts + [t], v) == t(Pipeline(ts, v))
  {
    if ts != [] {
      assert (ts + [t])[1..] == ts[1..] + [t];
      PipelineSnoc(ts[1..], t, ts[0](v));
    }
  }

  /** Applying the transpositions from the back agrees with the head-first pipeline. */
  lemma {:induction false} TransposedIsPipeline(ts: seq<Transposition>, v: Option<string>)
    ensures Transposed(ts, v) == Pipeline(ts, v)
  {
    if ts != [] {
      var init, last := ts[..|ts| - 1], ts[|ts| - 1];
      TransposedIsPipeline(init, v);
      PipelineSnoc(init, last, v);
      assert init + [last] == ts;
    }
  }

  /** Two transpositions T1, T2 yield T2(T1(v)). */
  lemma TransposedTwo(t1: Transposition, t2: Transposition, v: Option<string>)
    ensures Transposed([t1, t2], v) == t2(t1(v))
  {
    assert [t1, t2][..1] == [t1];
    assert [t1][..0] == [];
    assert Transposed([t1], v) == t1(Transposed([], v));
  }

  /**
   * A failing constraint rejects the value wherever it sits in the sequence,
   * whatever the constraints before and after it say.
   */
  lemma OneFailingConstraintRejects(before: seq<Constraint>, c: Constraint, after: seq<Constraint>, v: string)
    requires !c(v)
    ensures !SatisfiesAll(before + [c] + after, v)
  {
    assert (before + [c] + after)[|before|] == c;
  }
}
