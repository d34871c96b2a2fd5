# Parameter value store of the rewrite rule engine

This project models `DefaultParameterValueStore`, the binding table that the
rewrite rule engine creates for one rule-evaluation pass. During the pass,
conditions offer candidate values for named parameters, and the store decides
whether each value may be bound. The decision is a fixed ladder:

1. A parameter named `"*"` (the wildcard) is always accepted and nothing is stored.
2. A value equal to the one already stored is accepted without change. "No value"
   equal to "no value" counts too, so a null candidate for an unbound parameter
   is accepted and binds nothing.
3. For an unbound parameter, every constraint is evaluated against the candidate.
   If all of them accept it, the transpositions are applied left to right and the
   result is put into the map.
4. Anything else is a conflict, and the store is left unchanged.

The map is a `LinkedHashMap`, so iteration follows the order in which keys were
first put.

Files:

- `params.dfy` (module `Params`) holds the parameter. It has an identity, a name,
  a sequence of constraints (`string -> bool`) and a sequence of transpositions.
  It also defines the left-to-right application of the transpositions,
  `Transposed`, and a head-first reference definition, `Pipeline`.
- `store.dfy` (module `ValueStore`) holds the store:
  - `Store` is its value: the bindings and the insertion order.
  - `SubmitResult` is the decision ladder on that value.
  - The class `DefaultParameterValueStore` keeps the map as fields. Its `Submit`
    updates them in place, with the source's two loops, and is proved to follow
    `SubmitResult`.
  - Lemmas relate several submissions, up to any sequence of them (`SubmitAll`).

Java `null` is `Option<string>`. `Map.get` returns null both for a missing key and
for a key mapped to null, and `Lookup` models both.

A transposition may return null; `map.put` then stores the key with a null
value. The parameter still reads as unbound. The next accepted value overwrites
that entry, and the key keeps its original place in the iteration order
(`NullTranspositionLeavesUnbound`).

## Model

| member | source | states |
|---|---|---|
| `ValueStore.SubmitResult` | api/src/main/java/org/ocpsoft/rewrite/param/DefaultParameterValueStore.java:42-76 | The decision ladder of `submit`. A rejected value leaves the store unchanged. Only the submitted parameter's entry can change, and at most one key is added at the end of the order. A wildcard is accepted and stores nothing. The stored value, null included, is confirmed without change. A non-null binding is kept, and any other value conflicts. An unbound parameter is accepted iff every constraint accepts the candidate; it is then bound to the transposed value. Well-formedness is preserved. |
| `ValueStore.DefaultParameterValueStore.Submit` | api/src/main/java/org/ocpsoft/rewrite/param/DefaultParameterValueStore.java:42-76 | The in-place `submit`, with the loop over every constraint and the loop over the transpositions, returns and leaves exactly what `SubmitResult` prescribes for the old map, and keeps the map well formed. |
| `ValueStore.DefaultParameterValueStore.Retrieve` | api/src/main/java/org/ocpsoft/rewrite/param/DefaultParameterValueStore.java:36-39 | A side-effect-free lookup: a value is returned only for a key bound to it; None for a missing key or a key mapped to null. |
| `ValueStore.DefaultParameterValueStore.Get` | api/src/main/java/org/ocpsoft/rewrite/param/DefaultParameterValueStore.java:78-81 | Returns exactly what `Retrieve` returns. |
| `ValueStore.DefaultParameterValueStore.Iterator` | api/src/main/java/org/ocpsoft/rewrite/param/DefaultParameterValueStore.java:84-87 | Yields one entry per key, in insertion order, each with the key's current value. |
| `ValueStore.DefaultParameterValueStore.constructor` | api/src/main/java/org/ocpsoft/rewrite/param/DefaultParameterValueStore.java:33 | A new store is empty and well formed. |
| `ValueStore.Lookup` | api/src/main/java/org/ocpsoft/rewrite/param/DefaultParameterValueStore.java:45 | `Map.get`: a value only for a key mapped to it; null exactly when the key is missing or mapped to null. |
| `ValueStore.Put` | api/src/main/java/org/ocpsoft/rewrite/param/DefaultParameterValueStore.java:70 | `LinkedHashMap.put`: the key gets the new value, other keys keep theirs, and a new key goes to the end of the order while a present key keeps its place. Well-formedness is preserved. |
| `ValueStore.BindingsNeverChange` | api/src/main/java/org/ocpsoft/rewrite/param/DefaultParameterValueStore.java:51-73 | After any sequence of submissions, a parameter that was bound to a non-null value still has that value. |
| `ValueStore.OrderOnlyGrows` | api/src/main/java/org/ocpsoft/rewrite/param/DefaultParameterValueStore.java:65-73 | After any sequence of submissions, the map stays well formed, no key is lost, and the earlier iteration order is a prefix of the new one. |
| `ValueStore.ResubmitIsIdempotent` | api/src/main/java/org/ocpsoft/rewrite/param/DefaultParameterValueStore.java:51-54 | When the transpositions leave an accepted value as it is, submitting it again is accepted and changes nothing, and the stored value is that value (except for the wildcard). |
| `ValueStore.TranspositionBreaksResubmission` | api/src/main/java/org/ocpsoft/rewrite/param/DefaultParameterValueStore.java:64-70 | The limitation marked by the FIXME: once a transposition has changed an accepted value to another non-null value, submitting the same raw value again is rejected. |
| `ValueStore.StaleBindingConflicts` | api/src/main/java/org/ocpsoft/rewrite/param/DefaultParameterValueStore.java:44-75 | A binding made by one condition stays in the store. A later alternative that offers a different value for the same parameter is rejected, and the store is unchanged. |
| `ValueStore.NullTranspositionLeavesUnbound` | api/src/main/java/org/ocpsoft/rewrite/param/DefaultParameterValueStore.java:55-70 | A transposition result of null leaves the key in the map mapped to null. The parameter still reads as unbound. The next accepted value binds it without changing the iteration order. |
| `Params.TransposedIsPipeline` | api/src/main/java/org/ocpsoft/rewrite/param/DefaultParameterValueStore.java:67-69 | The value the transposition loop builds equals feeding the candidate through the transpositions head first. |
| `Params.TransposedTwo` | api/src/main/java/org/ocpsoft/rewrite/param/DefaultParameterValueStore.java:67-69 | Two transpositions T1, T2 yield T2(T1(v)). |
| `ValueStore.FailingConstraintRejectsSubmit` | api/src/main/java/org/ocpsoft/rewrite/param/DefaultParameterValueStore.java:55-65 | For an unbound, non-wildcard parameter, one constraint that rejects the candidate, in any position, makes `submit` return false and leave the store unchanged, whatever the other constraints say. |
| `Params.OneFailingConstraintRejects` | api/src/main/java/org/ocpsoft/rewrite/param/DefaultParameterValueStore.java:58-63 | One rejecting constraint, in any position, makes the whole constraint sequence reject, whatever the others say. |

`Params.IsWildcard` (the name test at line 47), `Params.SatisfiesAll` (the
outcome of the constraint loop at lines 58-63) and `Params.Transposed` (the value
the transposition loop at lines 67-69 builds) carry no contract of their own.
They are the vocabulary in which `SubmitResult` and `Submit` are stated.

## Left out

- The rewrite event and evaluation context passed to constraints and transpositions are dropped. Constraints and transpositions are pure functions of the value alone.
- Exceptions thrown by a constraint or a transposition are not modelled.
- `Submit`: evaluating every constraint rather than stopping at the first rejection is modelled by the loop, but it cannot be observed, because constraints are pure here.
- `Parameter` identity (`equals`/`hashCode`) is an abstract key `ParamId`. The wildcard test uses the name, as the source does.
- `Iterator` returns the entries as a sequence, not a live Java iterator over the map. Removal through the iterator is not modelled.
- `toString` is display only.
- Rule priority ordering, configuration providers and their aggregation, and the `RequestParameter` conditions are not part of this model.
