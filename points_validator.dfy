/** `WalkPointsArrayValidator`: a batch of points is accepted only when it is
    present and holds between 1 and 5000 points. */
module PointsValidator {
  import opened Common

  const MaxPoints: nat := 5000

  const SizeMessage: string := "Payload must have 1..5000 points."

  /** The validator's verdict and the message it records on the context, if
      any (a `null` list records none and leaves the default message). */
  datatype Verdict = Verdict(valid: bool, message: Option<string>)

  function IsValid<T>(points: Option<seq<T>>): (v: Verdict)
    ensures v.valid <==> points.Some? && 1 <= |points.value| <= MaxPoints
    ensures points.None? ==> v.message.None?
    ensures points.Some? ==> (v.message.Some? <==> !v.valid)
    ensures v.message.Some? ==> v.message.value == SizeMessage
  {
    if points.None? then Verdict(false, None)
    else if |points.value| == 0 then Verdict(false, Some(SizeMessage))
    else if |points.value| > MaxPoints then Verdict(false, Some(SizeMessage))
    else Verdict(true, None)
  }

  /** The verdict looks at the size of the list and never at its points. */
  lemma OnlySizeMatters<T>(a: seq<T>, b: seq<T>)
    requires |a| == |b|
    ensures IsValid(Some(a)) == IsValid(Some(b))
  {
  }
}
