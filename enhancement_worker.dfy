/**
  `onmessage` of workers/imageEnhancementWorker.js: the level switch over
  the same enhancement functions as the main thread, with a default case.
*/
module EnhancementWorker {

  import opened Pixels
  import opened Image
  import opened Enhancement

  /** The buffer the worker posts back for a level; any level it does not name gets the basic enhancement. */
  function Reply(s: seq<Byte>, width: nat, height: nat, level: string, exp: real -> real): (r: seq<Byte>)
    requires Shaped(|s|, width, height)
    requires forall t :: exp(t) > 0.0
    ensures |r| == |s|
  {
    if level == "advanced" || level == "ultra" then Enhanced(s, width, height, level, exp)
    else ColourPass(s, 1.15, 1.2)
  }

  /** The worker's switch, run on the received buffer in place before it is posted back. */
  method OnMessage(data: array<Byte>, width: nat, height: nat, level: string, exp: real -> real)
    requires Shaped(data.Length, width, height)
    requires forall t :: exp(t) > 0.0
    modifies data
    ensures data[..] == Reply(old(data[..]), width, height, level, exp)
  {
    if level == "basic" {
      BasicEnhancement(data);
    } else if level == "advanced" {
      AdvancedEnhancement(data, width, height);
    } else if level == "ultra" {
      UltraEnhancement(data, width, height, exp);
    } else {
      BasicEnhancement(data);
    }
  }

  /** The worker agrees with `enhanceImageData` on the named levels and falls back to basic otherwise. */
  lemma {:induction false} ReplyAgainstMainThread(s: seq<Byte>, width: nat, height: nat, level: string, exp: real -> real)
    requires Shaped(|s|, width, height)
    requires forall t :: exp(t) > 0.0
    ensures level == "basic" || level == "advanced" || level == "ultra" ==>
      Reply(s, width, height, level, exp) == Enhanced(s, width, height, level, exp)
    ensures level != "advanced" && level != "ultra" ==>
      Reply(s, width, height, level, exp) == Enhanced(s, width, height, "basic", exp)
  {
  }

  /** The reply has the alpha bytes of the message's buffer. */
  lemma {:induction false} ReplyKeepsAlpha(s: seq<Byte>, width: nat, height: nat, level: string, exp: real -> real, j: nat)
    requires Shaped(|s|, width, height) && j < |s| && IsAlpha(j)
    requires forall t :: exp(t) > 0.0
    ensures Reply(s, width, height, level, exp)[j] == s[j]
  {
    EnhancedKeepsAlpha(s, width, height, level, exp, j);
    EnhancedKeepsAlpha(s, width, height, "basic", exp, j);
  }
}
