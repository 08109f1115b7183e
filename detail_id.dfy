/**
 * Id generation for details stored without one (`generateDetailId` in
 * src/lib/requestDetailsDb.js). The clock's ISO string and the random
 * base-36 suffix are inputs here.
 */
module DetailId {
  import opened Wrappers
  import opened Json

  /** A character the pattern `[^a-zA-Z0-9-]` leaves alone. */
  predicate IdChar(c: char) {
    'a' <= c <= 'z' || 'A' <= c <= 'Z' || '0' <= c <= '9' || c == '-'
  }

  /** `s.replace(/[^a-zA-Z0-9-]/g, '-')`, one code unit at a time. */
  function ReplaceDisallowed(s: string): (r: string)
    ensures |r| == |s|
    ensures forall i :: 0 <= i < |r| ==> IdChar(r[i])
    ensures forall i :: 0 <= i < |s| && IdChar(s[i]) ==> r[i] == s[i]
    ensures forall i :: 0 <= i < |s| && !IdChar(s[i]) ==> r[i] == '-'
  {
    if s == [] then [] else [if IdChar(s[0]) then s[0] else '-'] + ReplaceDisallowed(s[1..])
  }

  /** The model part of an id: the model name made id-safe, or "unknown" when absent. */
  function ModelPart(model: Option<string>): (r: string)
    ensures Present(model) ==> |r| == |model.value|
    ensures !Present(model) ==> r == "unknown"
    ensures forall i :: 0 <= i < |r| ==> IdChar(r[i])
  {
    if Present(model) then ReplaceDisallowed(model.value) else "unknown"
  }

  /** `${timestamp}-${random}-${modelPart}`. */
  function GenerateDetailId(model: Option<string>, isoNow: string, random: string): (id: string)
    ensures |id| > 0
    ensures |id| == |isoNow| + |random| + 2 + |ModelPart(model)|
    ensures id[..|isoNow|] == isoNow
    ensures id[|id| - |ModelPart(model)|..] == ModelPart(model)
  {
    isoNow + "-" + random + "-" + ModelPart(model)
  }
}
