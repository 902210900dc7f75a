/** A value that may be missing, an answer that may be a refusal, and a function that forgets nothing. */
module Wrappers {
  datatype Option<+T> = None | Some(value: T)

  datatype Result<+T, +E> = Ok(value: T) | Err(error: E)

  /** Different things have different images: what is asked of a digest, or of a canonical encoding. */
  ghost predicate Injective<A(!new), B>(f: A -> B) { forall a, b :: f(a) == f(b) ==> a == b }

  /** One of a list of checks, and what is reported where it is the first that does not hold. */
  datatype Check<+E> = Check(holds: bool, error: E)

  /** Nothing is reported exactly when every check holds, and otherwise the first that does not. */
  ghost predicate Reports<E>(checks: seq<Check<E>>, reported: Option<E>) {
    match reported
    case None => forall i :: 0 <= i < |checks| ==> checks[i].holds
    case Some(e) =>
      exists i :: 0 <= i < |checks| && !checks[i].holds && checks[i].error == e && forall j :: 0 <= j < i ==> checks[j].holds
  }

  lemma ReportsConcat<E>(a: seq<Check<E>>, b: seq<Check<E>>, reported: Option<E>)
    ensures reported.Some? && Reports(a, reported) ==> Reports(a + b, reported)
    ensures Reports(a, None) && Reports(b, reported) ==> Reports(a + b, reported)
  {
    var c := a + b;
    assert forall i :: 0 <= i < |a| ==> c[i] == a[i];
    assert forall i :: 0 <= i < |b| ==> c[|a| + i] == b[i];
    if reported.Some? && Reports(a, reported) {
      var i :| 0 <= i < |a| && !a[i].holds && a[i].error == reported.value && forall j :: 0 <= j < i ==> a[j].holds;
      assert !c[i].holds;
    } else if Reports(a, None) && Reports(b, reported) && reported.Some? {
      var i :| 0 <= i < |b| && !b[i].holds && b[i].error == reported.value && forall j :: 0 <= j < i ==> b[j].holds;
      assert !c[|a| + i].holds;
      assert forall j :: |a| <= j < |a| + i ==> c[j] == b[j - |a|];
    }
  }

  /** Some checks, and where they all hold, more of them. */
  lemma ReportsThen<E>(a: seq<Check<E>>, first: Option<E>, b: seq<Check<E>>, reported: Option<E>)
    requires Reports(a, first) && (first.Some? ==> reported == first) && (first.None? ==> Reports(b, reported))
    ensures Reports(a + b, reported)
  {
    hide Reports;
    ReportsConcat(a, b, reported);
  }
}
