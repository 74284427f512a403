/** Shaping of the parsed answer into the analyses list (index.py lines 142-148). */
module Shaping {
  import opened Wrappers
  import opened JsonValue

  const ConfidenceKey: string := "confidence"
  /** The constant 0.9 every analysis is given; its float value plays no part. */
  const FixedConfidence: Json := Num(Decimal(9, -1))

  /**
   * `after` is the dict `before` once `confidence` is set to the constant: the
   * constant is there, every other key has its old value, and the keys keep their
   * order with `confidence` appended when it was missing.
   */
  ghost predicate Stamped(before: Json, after: Json) {
    && before.Obj? && after.Obj?
    && Get(after.members, ConfidenceKey) == Some(FixedConfidence)
    && (forall k :: k != ConfidenceKey ==> Get(after.members, k) == Get(before.members, k))
    && Keys(after.members) == (if ConfidenceKey in Keys(before.members) then Keys(before.members)
                               else Keys(before.members) + [ConfidenceKey])
  }

  /** Line 148 on one dict: `analysis["confidence"] = 0.9`. */
  function Stamp(item: Json): (r: Json)
    requires item.Obj?
    ensures Stamped(item, r)
  {
    Obj(Put(item.members, ConfidenceKey, FixedConfidence))
  }

  /**
   * The loop `for analysis in analyses: analysis["confidence"] = 0.9`. Item
   * assignment with a string key only works on a dict: any other item raises
   * TypeError, and the handler then answers with an error, so no partly stamped
   * list escapes.
   */
  function StampConfidence(items: seq<Json>): (r: Result<seq<Json>, Exception>)
    ensures r.Success? <==> forall i :: 0 <= i < |items| ==> items[i].Obj?
    ensures r.Failure? ==> r.error == TypeError
    ensures r.Success? ==> |r.value| == |items|
    ensures r.Success? ==> forall i :: 0 <= i < |items| ==> Stamped(items[i], r.value[i])
  {
    if forall i :: 0 <= i < |items| ==> items[i].Obj? then
      Success(seq(|items|, i requires 0 <= i < |items| && items[i].Obj? => Stamp(items[i])))
    else
      Failure(TypeError)
  }

  /**
   * Lines 143-148 together: a single parsed dict becomes a one-element list, a
   * list keeps its length and order; every element ends up stamped. Anything
   * else, or a list holding a non-dict, raises TypeError.
   */
  function ShapeAnalyses(parsed: Json): (r: Result<seq<Json>, Exception>)
    ensures r.Success? <==> parsed.Obj? || (parsed.Arr? && forall i :: 0 <= i < |parsed.items| ==> parsed.items[i].Obj?)
    ensures r.Failure? ==> r.error == TypeError
    ensures r.Success? && parsed.Obj? ==> |r.value| == 1 && Stamped(parsed, r.value[0])
    ensures r.Success? && parsed.Arr? ==>
              |r.value| == |parsed.items| && forall i :: 0 <= i < |parsed.items| ==> Stamped(parsed.items[i], r.value[i])
  {
    var items := AsList(parsed);
    assert !parsed.Arr? ==> |items| == 1 && items[0] == parsed;
    StampConfidence(items)
  }

  /** Stamping an already stamped list changes nothing. */
  lemma StampTwice(items: seq<Json>)
    requires StampConfidence(items).Success?
    ensures StampConfidence(StampConfidence(items).value) == StampConfidence(items)
  {
    var once := StampConfidence(items).value;
    forall i | 0 <= i < |items| ensures once[i].Obj? && Stamp(once[i]) == once[i] {
      PutTwice(items[i].members, ConfidenceKey, FixedConfidence);
    }
    assert StampConfidence(once).value == once;
  }
}
