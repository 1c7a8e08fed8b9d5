/**
 * Applying a step that may raise to each string of a list in turn.
 */
module Collect {
  import opened Wrappers

  /** The outcome of applying `step` to the strings one after another, as a
    * list comprehension does: every result in order, or the error of the
    * first one that raises. */
  function CollectWith<T, E>(step: string -> Result<T, E>, refs: seq<string>): (r: Result<seq<T>, E>)
    ensures r.Ok? <==> forall k :: 0 <= k < |refs| ==> step(refs[k]).Ok?
    ensures r.Ok? ==> |r.value| == |refs|
    ensures r.Ok? ==> forall k :: 0 <= k < |refs| ==> step(refs[k]) == Ok(r.value[k])
    ensures r.Err? ==> exists k :: 0 <= k < |refs| && step(refs[k]) == Err(r.error)
                                  && forall j :: 0 <= j < k ==> step(refs[j]).Ok?
  {
    if |refs| == 0 then Ok([])
    else match step(refs[0])
      case Err(e) => Err(e)
      case Ok(t) =>
        match CollectWith(step, refs[1..])
        case Err(e) =>
          ghost var k :| 0 <= k < |refs[1..]| && step(refs[1..][k]) == Err(e)
                         && forall j :: 0 <= j < k ==> step(refs[1..][j]).Ok?;
          assert step(refs[k + 1]) == Err(e);
          assert forall j :: 0 <= j < k + 1 ==> step(refs[j]).Ok? by {
            forall j | 0 < j < k + 1 ensures step(refs[j]).Ok? {
              assert refs[j] == refs[1..][j - 1];
            }
          }
          Err(e)
        case Ok(ts) =>
          assert forall k :: 0 < k < |refs| ==> refs[k] == refs[1..][k - 1];
          Ok([t] + ts)
  }

  /** The first string that fails is the one whose error the whole list
    * reports. */
  lemma FirstFailureDecides<T, E>(step: string -> Result<T, E>, refs: seq<string>, i: nat)
    requires i < |refs| && step(refs[i]).Err?
    requires forall k :: 0 <= k < i ==> step(refs[k]).Ok?
    ensures CollectWith(step, refs) == Err(step(refs[i]).error)
  {
    var r := CollectWith(step, refs);
    var k :| 0 <= k < |refs| && step(refs[k]) == Err(r.error)
             && forall j :: 0 <= j < k ==> step(refs[j]).Ok?;
    assert k == i;
  }

}
