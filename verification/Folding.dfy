/**
 * Folded properties. A proof that only hands a large property on is spared its contents when the property
 * is a status instead of a predicate, and its definition stands behind a key:
 *
 *     if forall k {:trigger Key(k)} :: Key(k) ==> Contents then Sound else Unsound
 *
 * is Sound exactly when Contents holds, but a proof sees Contents only where it mentions a key, as in
 * `assert Key(0);`.
 */
module Folding {
  datatype Status = Sound | Unsound

  predicate Key(k: int) { true }
}
