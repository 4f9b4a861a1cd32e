/** The image acquisition orchestrator: for every scene, try the configured
    providers in priority order (HuggingFace, Cloudflare, Pollinations) and
    fall back to a solid-colour placeholder; run the scenes on a worker pool
    and gather the file paths into a list index-aligned with the scenes.

    Every network call is an abstract reply supplied by the caller; the thread
    pool is a sequential loop over the order in which its jobs complete. */
module ImageGenerator {
  import opened Common

  const StylePreset := "cinematic lighting, ultra realistic, shallow depth of field, "
    + "35mm film still, dramatic contrast, professional photography, "
    + "global illumination, sharp focus"

  const NegativePreset := "blurry, low quality, watermark, distorted, bad anatomy, "
    + "oversaturated, cartoon, illustration"

  /** The prompt sent for one scene: the scene's own prompt first, then the
      shared style, the style seed, and the negative preset last. */
  function BuildPrompt(scenePrompt: string, styleSeed: int): (p: string)
    ensures StartsWith(p, scenePrompt)
    ensures EndsWith(p, "Negative: " + NegativePreset)
  {
    var middle := ", " + StylePreset + ", same visual style, style seed " + IntToString(styleSeed) + ". ";
    var tail := "Negative: " + NegativePreset;
    Framed(scenePrompt, middle, tail);
    scenePrompt + middle + tail
  }

  // ---------------------------------------------------------------------
  // Credentials and provider replies
  // ---------------------------------------------------------------------

  /** The optional credentials `generate_images` is called with. */
  datatype Credentials = Credentials(
    hfToken: Option<string>,
    cfAccountId: Option<string>,
    cfApiToken: Option<string>,
    pollinationsKey: Option<string>)

  /** The engine that produced a scene's image, as `generate_image` names it. */
  datatype Engine = HuggingFace | Cloudflare | Pollinations | Placeholder

  /** Position of an engine in the fixed priority order. */
  function Rank(e: Engine): nat {
    match e
    case HuggingFace => 0
    case Cloudflare => 1
    case Pollinations => 2
    case Placeholder => 3
  }

  /** The reply to the HuggingFace POST: its status, its content-type header
      (absent or present) and whether writing the body to disk went through;
      or the request raised (timeout, connection error). */
  datatype HfReply = HfResponse(status: int, contentType: Option<string>, saved: bool) | HfRaised

  /** The reply to the Cloudflare POST: its status, whether `json()["result"]["image"]`
      yielded a byte list, and whether writing it went through; or the request raised. */
  datatype CfReply = CfResponse(status: int, hasImage: bool, saved: bool) | CfRaised

  /** The reply to one Pollinations GET: status, body length in bytes and
      whether writing the body went through; or the request raised. */
  datatype PollReply = PollResponse(status: int, bodyLength: nat, saved: bool) | PollRaised

  /** Everything the outside world answers while one scene is processed:
      one HuggingFace reply, one Cloudflare reply, the reply to each
      Pollinations attempt by attempt number, and whether saving the
      placeholder raised. */
  datatype ProviderEnv = ProviderEnv(
    hf: HfReply,
    cf: CfReply,
    poll: nat -> PollReply,
    placeholderSaves: bool)

  /** `generate_with_huggingface` returns True: status 200, a content type
      starting with "image" (a missing header reads as ""), and the file written. */
  predicate HuggingFaceSucceeds(reply: HfReply) {
    reply.HfResponse? && reply.status == 200
    && StartsWith(reply.contentType.GetOr(""), "image") && reply.saved
  }

  /** `generate_with_cloudflare` returns True: status 200, an image byte list
      in the JSON envelope, and the file written. */
  predicate CloudflareSucceeds(reply: CfReply) {
    reply.CfResponse? && reply.status == 200 && reply.hasImage && reply.saved
  }

  // ---------------------------------------------------------------------
  // Pollinations: up to three attempts under the provider lock
  // ---------------------------------------------------------------------

  const PollinationsAttempts: nat := 3
  const MinImageBytes: nat := 5000
  /** Pause after an attempt that raised (1.5 s). */
  const RetrySleepMs: nat := 1500
  /** Cooldown after the accepted attempt, before the lock is released (0.6 s). */
  const CooldownMs: nat := 600

  /** How one attempt ends: accepted and written, rejected (a status other
      than 200 or a body of at most 5000 bytes), or an exception (the request
      raised, or writing the accepted body raised). */
  datatype Verdict = Accepted | Rejected | Raised

  function PollVerdict(reply: PollReply): Verdict {
    match reply
    case PollRaised => Raised
    case PollResponse(status, bodyLength, saved) =>
      if status == 200 && bodyLength > MinImageBytes then
        (if saved then Accepted else Raised)
      else Rejected
  }

  /** The pause taken after an attempt: 1.5 s exactly after an exception,
      0.6 s exactly after the accepted attempt, none after a rejection. */
  function PauseAfter(v: Verdict): (ms: nat)
    ensures ms == RetrySleepMs <==> v == Raised
    ensures ms == CooldownMs <==> v == Accepted
    ensures ms == 0 <==> v == Rejected
  {
    match v
    case Accepted => CooldownMs
    case Rejected => 0
    case Raised => RetrySleepMs
  }

  /** What a run of the Pollinations loop did: its boolean result and, per
      GET attempt made, the pause taken after it. */
  datatype PollRun = PollRun(ok: bool, pausesMs: seq<nat>)

  /** The loop from attempt number `attempt` on: `pausesMs[i - attempt]`
      belongs to attempt `i`. */
  function PollinationsFrom(replies: nat -> PollReply, attempt: nat): (r: PollRun)
    requires attempt <= PollinationsAttempts
    ensures attempt + |r.pausesMs| <= PollinationsAttempts
    ensures attempt < PollinationsAttempts ==> |r.pausesMs| >= 1
    ensures forall i :: attempt <= i < attempt + |r.pausesMs| ==>
      r.pausesMs[i - attempt] == PauseAfter(PollVerdict(replies(i)))
    ensures forall i :: attempt <= i < attempt + |r.pausesMs| - 1 ==> PollVerdict(replies(i)) != Accepted
    ensures r.ok <==> exists i :: attempt <= i < PollinationsAttempts && PollVerdict(replies(i)) == Accepted
    ensures r.ok ==> PollVerdict(replies(attempt + |r.pausesMs| - 1)) == Accepted
    ensures !r.ok ==> attempt + |r.pausesMs| == PollinationsAttempts
    decreases PollinationsAttempts - attempt
  {
    if attempt == PollinationsAttempts then PollRun(false, [])
    else
      var v := PollVerdict(replies(attempt));
      if v == Accepted then PollRun(true, [CooldownMs])
      else
        var rest := PollinationsFrom(replies, attempt + 1);
        PollRun(rest.ok, [PauseAfter(v)] + rest.pausesMs)
  }

  /** `generate_with_pollinations`: at most three GETs, stopping at the first
      accepted one; True iff one of the first three attempts is accepted. The
      pause after attempt `i` is `PauseAfter` of its verdict. */
  function PollinationsRun(replies: nat -> PollReply): (r: PollRun)
    ensures 1 <= |r.pausesMs| <= PollinationsAttempts
    ensures r.ok <==> exists i :: 0 <= i < PollinationsAttempts && PollVerdict(replies(i)) == Accepted
    ensures forall i :: 0 <= i < |r.pausesMs| ==> r.pausesMs[i] == PauseAfter(PollVerdict(replies(i)))
    ensures r.ok ==> PollVerdict(replies(|r.pausesMs| - 1)) == Accepted
    ensures forall i :: 0 <= i < |r.pausesMs| - 1 ==> PollVerdict(replies(i)) != Accepted
    ensures !r.ok ==> |r.pausesMs| == PollinationsAttempts
  {
    PollinationsFrom(replies, 0)
  }

  /** The run `r` of the later attempts, after the pauses `earlier` of the attempts made before. */
  function After(earlier: seq<nat>, r: PollRun): PollRun {
    PollRun(r.ok, earlier + r.pausesMs)
  }

  /** One attempt of the loop, unfolded. */
  lemma PollinationsStep(replies: nat -> PollReply, attempt: nat, earlier: seq<nat>)
    requires attempt < PollinationsAttempts
    ensures var v := PollVerdict(replies(attempt));
      After(earlier, PollinationsFrom(replies, attempt))
      == if v == Accepted then PollRun(true, earlier + [CooldownMs])
         else After(earlier + [PauseAfter(v)], PollinationsFrom(replies, attempt + 1))
  {
    var v := PollVerdict(replies(attempt));
    if v != Accepted {
      var rest := PollinationsFrom(replies, attempt + 1);
      assert earlier + ([PauseAfter(v)] + rest.pausesMs) == (earlier + [PauseAfter(v)]) + rest.pausesMs;
    }
  }

  /** The `for attempt in range(3)` loop of `generate_with_pollinations`, with
      its early return; `pauses` records each sleep (0 where none is taken). */
  method PollinationsLoop(replies: nat -> PollReply) returns (ok: bool, pauses: seq<nat>)
    ensures PollRun(ok, pauses) == PollinationsRun(replies)
  {
    pauses := [];
    for attempt := 0 to PollinationsAttempts
      invariant PollinationsRun(replies) == After(pauses, PollinationsFrom(replies, attempt))
    {
      PollinationsStep(replies, attempt, pauses);
      var v := PollVerdict(replies(attempt));
      if v == Accepted {
        pauses := pauses + [CooldownMs];
        return true, pauses;
      } else if v == Raised {
        pauses := pauses + [RetrySleepMs];
      } else {
        pauses := pauses + [0];
      }
    }
    ok := false;
  }

  // ---------------------------------------------------------------------
  // The provider fallback chain for one scene
  // ---------------------------------------------------------------------

  predicate HuggingFaceWins(creds: Credentials, env: ProviderEnv) {
    Truthy(creds.hfToken) && HuggingFaceSucceeds(env.hf)
  }

  predicate CloudflareConfigured(creds: Credentials) {
    Truthy(creds.cfAccountId) && Truthy(creds.cfApiToken)
  }

  predicate CloudflareWins(creds: Credentials, env: ProviderEnv) {
    CloudflareConfigured(creds) && CloudflareSucceeds(env.cf)
  }

  predicate PollinationsWins(creds: Credentials, env: ProviderEnv) {
    Truthy(creds.pollinationsKey) && PollinationsRun(env.poll).ok
  }

  /** The engines called, in priority order, given which of them were called. */
  function Calls(hf: bool, cf: bool, poll: bool, placeholder: bool): (c: seq<Engine>)
    ensures HuggingFace in c <==> hf
    ensures Cloudflare in c <==> cf
    ensures Pollinations in c <==> poll
    ensures Placeholder in c <==> placeholder
    ensures forall i, j :: 0 <= i < j < |c| ==> Rank(c[i]) < Rank(c[j])
    ensures placeholder ==> c[|c| - 1] == Placeholder
    ensures !placeholder && poll ==> c[|c| - 1] == Pollinations
    ensures !placeholder && !poll && cf ==> c[|c| - 1] == Cloudflare
    ensures !placeholder && !poll && !cf && hf ==> c[|c| - 1] == HuggingFace
  {
    (if hf then [HuggingFace] else []) + (if cf then [Cloudflare] else [])
    + (if poll then [Pollinations] else []) + (if placeholder then [Placeholder] else [])
  }

  /** What `generate_image` did for one scene: the engine tag it returns, the
      engines it called in order (the placeholder counted as a call), the
      Pollinations run if there was one, and the ignored result of writing
      the placeholder if it was written. */
  datatype ImageOutcome = ImageOutcome(
    engine: Engine,
    calls: seq<Engine>,
    pollinations: Option<PollRun>,
    placeholderSaved: Option<bool>)

  /** `generate_image`: the first configured provider that succeeds wins;
      when none does, the placeholder is written and the tag is "Placeholder"
      whether or not writing it went through. */
  function GenerateImage(creds: Credentials, env: ProviderEnv): (r: ImageOutcome)
    // the tag
    ensures r.engine == HuggingFace <==> HuggingFaceWins(creds, env)
    ensures r.engine == Cloudflare <==> !HuggingFaceWins(creds, env) && CloudflareWins(creds, env)
    ensures r.engine == Pollinations <==>
      !HuggingFaceWins(creds, env) && !CloudflareWins(creds, env) && PollinationsWins(creds, env)
    ensures r.engine == Placeholder <==>
      !HuggingFaceWins(creds, env) && !CloudflareWins(creds, env) && !PollinationsWins(creds, env)
    // the Pollinations run and the placeholder write
    ensures r.pollinations.Some? <==>
      Truthy(creds.pollinationsKey) && !HuggingFaceWins(creds, env) && !CloudflareWins(creds, env)
    ensures r.pollinations.Some? ==> r.pollinations.value == PollinationsRun(env.poll)
    ensures r.placeholderSaved.Some? <==> r.engine == Placeholder
    ensures r.placeholderSaved.Some? ==> r.placeholderSaved.value == env.placeholderSaves
  {
    var hfWins := HuggingFaceWins(creds, env);
    var cfTried := !hfWins && CloudflareConfigured(creds);
    var cfWins := !hfWins && CloudflareWins(creds, env);
    var pollTried := !hfWins && !cfWins && Truthy(creds.pollinationsKey);
    var pollWins := pollTried && PollinationsRun(env.poll).ok;
    var none := !hfWins && !cfWins && !pollWins;
    var calls := Calls(Truthy(creds.hfToken), cfTried, pollTried, none);
    var engine :=
      if hfWins then HuggingFace
      else if cfWins then Cloudflare
      else if pollWins then Pollinations
      else Placeholder;
    ImageOutcome(engine, calls,
                 if pollTried then Some(PollinationsRun(env.poll)) else None,
                 if none then Some(env.placeholderSaves) else None)
  }

  /** Which providers `generate_image` calls, and in which order: HuggingFace
      whenever its token is set, Cloudflare when it is configured and
      HuggingFace did not win, Pollinations when its key is set and neither
      earlier provider won; always in priority order, the winner (or the
      placeholder) last. */
  lemma GenerateImageCalls(creds: Credentials, env: ProviderEnv)
    ensures var r := GenerateImage(creds, env);
      && (HuggingFace in r.calls <==> Truthy(creds.hfToken))
      && (Cloudflare in r.calls <==> CloudflareConfigured(creds) && !HuggingFaceWins(creds, env))
      && (Pollinations in r.calls <==> r.pollinations.Some?)
      && (Placeholder in r.calls <==> r.engine == Placeholder)
      && |r.calls| >= 1 && r.calls[|r.calls| - 1] == r.engine
      && (forall i, j :: 0 <= i < j < |r.calls| ==> Rank(r.calls[i]) < Rank(r.calls[j]))
  {
  }

  // ---------------------------------------------------------------------
  // generate_images: seeds, worker cap, per-scene jobs, index-aligned fan-in
  // ---------------------------------------------------------------------

  const MinStyleSeed := 10000
  const MaxStyleSeed := 99999

  /** `max_workers`: 4 when a HuggingFace or Cloudflare API token is present
      (the Cloudflare account id plays no part), else 2 when a Pollinations
      key is present, else 1. */
  function WorkerCap(creds: Credentials): (w: nat)
    ensures w == 1 || w == 2 || w == 4
    ensures w == 4 <==> Truthy(creds.hfToken) || Truthy(creds.cfApiToken)
    ensures w == 2 <==> !Truthy(creds.hfToken) && !Truthy(creds.cfApiToken) && Truthy(creds.pollinationsKey)
  {
    if Truthy(creds.hfToken) || Truthy(creds.cfApiToken) then 4
    else if Truthy(creds.pollinationsKey) then 2
    else 1
  }

  /** `os.path.join(output_folder, f"scene_{index}.jpg")`. */
  function ScenePath(folder: string, index: nat): string {
    IndexedPath(folder, "scene_", index, ".jpg")
  }

  /** What `process_scene` hands back, with the engine and request it used. */
  datatype SceneResult = SceneResult(index: nat, path: string, prompt: string, seed: int, engine: Engine)

  /** `process_scene(index, scene)`: the scene's prompt with the shared style
      seed, the seed `style_seed + index`, and the fallback chain run against
      the replies the outside world gives for this scene. */
  function ProcessScene(folder: string, styleSeed: int, creds: Credentials,
                        env: nat -> ProviderEnv, index: nat, scene: Scene): (r: SceneResult)
    ensures r.index == index && r.path == ScenePath(folder, index)
    ensures r.seed - index == styleSeed
    ensures StartsWith(r.prompt, scene.imagePrompt) && EndsWith(r.prompt, "Negative: " + NegativePreset)
    ensures r.engine == GenerateImage(creds, env(index)).engine
  {
    SceneResult(index, ScenePath(folder, index), BuildPrompt(scene.imagePrompt, styleSeed),
                styleSeed + index, GenerateImage(creds, env(index)).engine)
  }

  /** `as_completed` hands back every one of the `n` submitted jobs exactly once. */
  predicate IsCompletionOrder(order: seq<nat>, n: nat) {
    && |order| == n
    && (forall k :: 0 <= k < n ==> order[k] < n)
    && (forall i :: 0 <= i < n ==> i in order)
    && (forall k, l :: 0 <= k < l < n ==> order[k] != order[l])
  }

  /** Slot `idx` of the result list receives `path`. The out-of-range branch is
      never taken from `GenerateImages`, whose indices all come from enumerating
      the same scene list; the source would raise IndexError there. */
  function WriteSlot(slots: seq<Option<string>>, done: SceneResult): seq<Option<string>> {
    if done.index < |slots| then slots[done.index := Some(done.path)] else slots
  }

  /** The result list after the completed jobs, in completion order, have written their slots. */
  function Fill(slots: seq<Option<string>>, completed: seq<SceneResult>): (r: seq<Option<string>>)
    ensures |r| == |slots|
  {
    if completed == [] then slots
    else WriteSlot(Fill(slots, completed[..|completed| - 1]), completed[|completed| - 1])
  }

  /** Jobs that report the same index report the same path. */
  predicate PathPerIndex(completed: seq<SceneResult>) {
    forall k, l :: 0 <= k < |completed| && 0 <= l < |completed| && completed[k].index == completed[l].index ==>
      completed[k].path == completed[l].path
  }

  /** Slot `i` holds the path of a completed job for index `i`, or keeps its
      initial value if no job for `i` completed. */
  lemma {:induction false} FillAt(slots: seq<Option<string>>, completed: seq<SceneResult>, i: nat)
    requires i < |slots|
    requires PathPerIndex(completed)
    ensures forall k :: 0 <= k < |completed| && completed[k].index == i ==>
      Fill(slots, completed)[i] == Some(completed[k].path)
    ensures (forall k :: 0 <= k < |completed| ==> completed[k].index != i) ==>
      Fill(slots, completed)[i] == slots[i]
    decreases |completed|
  {
    if completed != [] {
      var init := completed[..|completed| - 1];
      assert PathPerIndex(init) by {
        forall k, l | 0 <= k < |init| && 0 <= l < |init| && init[k].index == init[l].index
          ensures init[k].path == init[l].path
        {
          assert completed[k] == init[k] && completed[l] == init[l];
        }
      }
      FillAt(slots, init, i);
      forall k | 0 <= k < |completed| && completed[k].index == i
        ensures Fill(slots, completed)[i] == Some(completed[k].path)
      {
        if k < |completed| - 1 {
          assert init[k] == completed[k];
        }
      }
      if forall k :: 0 <= k < |completed| ==> completed[k].index != i {
        assert forall k :: 0 <= k < |init| ==> init[k] == completed[k];
      }
    }
  }

  /** `[None] * n`: the pre-sized result list before any job completes. */
  function Unfilled(n: nat): (r: seq<Option<string>>)
    ensures |r| == n && forall i :: 0 <= i < n ==> r[i] == None
  {
    seq(n, _ => None)
  }

  /** The list every run of `generate_images` returns: slot `i` holds the
      path of scene `i`. */
  function ScenePaths(folder: string, n: nat): (r: seq<Option<string>>)
    ensures |r| == n
    ensures forall i :: 0 <= i < n ==> r[i] == Some(ScenePath(folder, i))
  {
    seq(n, i requires 0 <= i => Some(ScenePath(folder, i)))
  }

  /** The fan-in does not depend on completion order: however `as_completed`
      orders the jobs, the filled list equals `ScenePaths`, with no slot None. */
  lemma {:induction false} FanInOrderIndependent(folder: string, n: nat, order: seq<nat>, completed: seq<SceneResult>)
    requires IsCompletionOrder(order, n)
    requires |completed| == n
    requires forall k :: 0 <= k < n ==>
      completed[k].index == order[k] && completed[k].path == ScenePath(folder, order[k])
    ensures Fill(Unfilled(n), completed) == ScenePaths(folder, n)
  {
    var filled := Fill(Unfilled(n), completed);
    forall i: nat | i < n {
      FanInSlot(folder, n, order, completed, i);
    }
    assert forall i :: 0 <= i < n ==> filled[i] == Some(ScenePath(folder, i));
  }

  /** One slot of `FanInOrderIndependent`: the job for index `i` completed somewhere in the order. */
  lemma {:induction false} FanInSlot(folder: string, n: nat, order: seq<nat>, completed: seq<SceneResult>, i: nat)
    requires IsCompletionOrder(order, n)
    requires |completed| == n && i < n
    requires forall k :: 0 <= k < n ==>
      completed[k].index == order[k] && completed[k].path == ScenePath(folder, order[k])
    ensures Fill(Unfilled(n), completed)[i] == Some(ScenePath(folder, i))
  {
    FillAt(Unfilled(n), completed, i);
    assert i in order;
    var k :| 0 <= k < n && order[k] == i;
    assert completed[k].index == i;
  }

  /** The results the pool's futures hold, in the order `as_completed` yields them. */
  function PoolResults(folder: string, styleSeed: int, creds: Credentials, env: nat -> ProviderEnv,
                       scenes: seq<Scene>, order: seq<nat>): (r: seq<SceneResult>)
    requires IsCompletionOrder(order, |scenes|)
    ensures |r| == |scenes|
    ensures forall k :: 0 <= k < |r| ==> r[k].index == order[k] && r[k].path == ScenePath(folder, order[k])
  {
    seq(|scenes|, k requires 0 <= k < |scenes| => ProcessScene(folder, styleSeed, creds, env, order[k], scenes[order[k]]))
  }

  /** The `for future in as_completed(futures)` loop: each completed job
      writes its path into the pre-sized list at the index it reports. */
  method FanIn(n: nat, completed: seq<SceneResult>) returns (imagePaths: array<Option<string>>)
    ensures fresh(imagePaths)
    ensures imagePaths[..] == Fill(Unfilled(n), completed)
  {
    imagePaths := new Option<string>[n](_ => None);
    ghost var slots := Unfilled(n);
    assert imagePaths[..] == slots;
    for k := 0 to |completed|
      invariant imagePaths[..] == Fill(slots, completed[..k])
    {
      var done := completed[k];
      FillSnoc(slots, completed[..k], done);
      assert completed[..k + 1] == completed[..k] + [done];
      StoreResult(imagePaths, done);
    }
    assert completed[..|completed|] == completed;
  }

  /** `generate_images`: pick the worker cap, run one job per scene, and
      gather the paths into the pre-sized result list as the jobs complete in
      `order`. The returned list is index-aligned with the scenes and has no
      empty slot, whatever the completion order. */
  method GenerateImages(scenes: seq<Scene>, folder: string, creds: Credentials, styleSeed: int,
                        env: nat -> ProviderEnv, order: seq<nat>)
    returns (imagePaths: array<Option<string>>, maxWorkers: nat, completed: seq<SceneResult>)
    requires MinStyleSeed <= styleSeed <= MaxStyleSeed
    requires IsCompletionOrder(order, |scenes|)
    ensures fresh(imagePaths)
    ensures maxWorkers == WorkerCap(creds)
    ensures completed == PoolResults(folder, styleSeed, creds, env, scenes, order)
    ensures imagePaths[..] == Fill(Unfilled(|scenes|), completed)
    ensures imagePaths[..] == ScenePaths(folder, |scenes|)
  {
    maxWorkers := WorkerCap(creds);
    completed := PoolResults(folder, styleSeed, creds, env, scenes, order);
    imagePaths := FanIn(|scenes|, completed);
    FanInOrderIndependent(folder, |scenes|, order, completed);
  }

  /** `image_paths[idx] = path` for one completed job. */
  method StoreResult(imagePaths: array<Option<string>>, done: SceneResult)
    modifies imagePaths
    ensures imagePaths[..] == WriteSlot(old(imagePaths[..]), done)
  {
    if done.index < imagePaths.Length {
      imagePaths[done.index] := Some(done.path);
    }
  }

  /** Completing one more job writes its slot on top of the earlier ones. */
  lemma FillSnoc(slots: seq<Option<string>>, completed: seq<SceneResult>, done: SceneResult)
    ensures Fill(slots, completed + [done]) == WriteSlot(Fill(slots, completed), done)
  {
    assert (completed + [done])[..|completed|] == completed;
  }

  /** Different scenes write different files. */
  lemma ScenePathsDistinct(folder: string, i: nat, j: nat)
    requires i != j
    ensures ScenePath(folder, i) != ScenePath(folder, j)
  {
    if ScenePath(folder, i) == ScenePath(folder, j) {
      IndexedPathInjective(folder, "scene_", ".jpg", i, j);
    }
  }
}
