/** The generation lifecycle of `handleGenerate` (App.tsx:24-73) as
    transitions of the application's state. The async handler is split at its
    single `await`: `Start` runs up to the call to the image service and
    `Settle` runs once the call has returned or thrown. Each firing of the
    progress interval is a separate `Tick` event. Every other handler of the
    component is an `Event` too, so whole runs can be reasoned about. */
module Generation {
  import opened Types
  import opened Text
  import Gallery
  import GeminiService

  /** The cosmetic progress messages, cycled while a request is out. */
  const ProgressMessages: seq<string> := [
    "Connecting to Gemini AI...",
    "Synthesizing 3D textures...",
    "Calculating depth maps...",
    "Rendering volumetric lighting...",
    "Polishing final pixels..."
  ]

  const FailureMessage: string := "Failed to generate wallpaper. Please try again."

  /** The state the panel rests in before and after a successful attempt. */
  const Idle: GenerationState := GenerationState(false, None, "")

  /** The state a failed attempt leaves behind. */
  const Failed: GenerationState := GenerationState(false, Some(FailureMessage), "")

  /** What an in-flight handler call holds across its `await`: the prompt and
      aspect ratio it read when it started, the id of the interval it created
      and the prompt it sent. */
  datatype Pending = Pending(prompt: string, aspectRatio: AspectRatio, interval: nat, enhancedPrompt: string)

  /** The component's state. `intervals` maps the id of every interval that
      has not been cleared to the `msgIndex` its callback holds;
      `nextInterval` is the id the next `setInterval` returns. */
  datatype Snapshot = Snapshot(
    wallpapers: seq<Wallpaper>,
    activeCategory: Category,
    searchQuery: string,
    prompt: string,
    aspectRatio: AspectRatio,
    generation: GenerationState,
    intervals: map<nat, nat>,
    nextInterval: nat)

  /** The `useState` initial values. */
  const Initial: Snapshot := Snapshot(InitialWallpapers, All, "", "", Landscape, Idle, map[], 1)

  /** The panel shows nothing or one of the five messages, and one of them
      while generating; it carries no error while generating, and the only
      error it ever shows is the fixed failure text. */
  ghost predicate PanelValid(g: GenerationState) {
    && (g.progressMessage == "" || g.progressMessage in ProgressMessages)
    && (g.isGenerating ==> g.progressMessage in ProgressMessages)
    && (g.isGenerating ==> g.error == None)
    && (g.error.Some? ==> g.error.value == FailureMessage)
  }

  /** Every live interval has an id already handed out and an index in range. */
  ghost predicate IntervalsValid(intervals: map<nat, nat>, nextInterval: nat) {
    forall id :: id in intervals ==> id < nextInterval && intervals[id] < |ProgressMessages|
  }

  /** Every generated record is filed under 'Abstract'. */
  ghost predicate GalleryValid(ws: seq<Wallpaper>) {
    forall w :: w in ws && w.isAIGenerated ==> w.category == Abstract
  }

  /** The consistency every reachable state keeps. */
  ghost predicate Valid(s: Snapshot) {
    PanelValid(s.generation) && IntervalsValid(s.intervals, s.nextInterval) && GalleryValid(s.wallpapers)
  }

  lemma InitialValid()
    ensures Valid(Initial)
  {
  }

  /** The prompt sent to the image service: the raw, untrimmed prompt and
      every enhancer, in order, all joined by ", ". */
  function EnhancePrompt(prompt: string): (r: string)
    ensures prompt + ", " <= r
  {
    var xs := [prompt] + PromptEnhancers;
    assert xs[0] == prompt && |xs| > 1;
    Join(xs, ", ")
  }

  /** This is the template `${prompt}, ${PROMPT_ENHANCERS.join(', ')}`. */
  lemma EnhancePromptIsTemplate(prompt: string)
    ensures EnhancePrompt(prompt) == prompt + ", " + Join(PromptEnhancers, ", ")
  {
    assert ([prompt] + PromptEnhancers)[1..] == PromptEnhancers;
  }

  /** The raw prompt can be read back from the prompt that was sent. */
  lemma EnhancePromptInjective(p: string, q: string)
    requires EnhancePrompt(p) == EnhancePrompt(q)
    ensures p == q
  {
    assert |p| == |q|;
    assert p == EnhancePrompt(p)[..|p|];
  }

  /** The record a successful attempt adds. Its id is `Date.now().toString()`
      for the supplied clock reading `now`. */
  function NewWallpaper(p: Pending, url: string, now: nat): (w: Wallpaper)
    ensures w.url == url && w.prompt == p.prompt && w.aspectRatio == p.aspectRatio
    ensures w.category == Abstract && w.isAIGenerated
    ensures w.id == DecimalString(now)
  {
    Wallpaper(DecimalString(now), url, p.prompt, Abstract, p.aspectRatio, true)
  }

  /** The handler up to its `await` (App.tsx:25-50). A blank prompt returns
      at once with nothing changed. Otherwise the panel shows the first
      progress message, a new interval starts with index 0, and the pending
      call carries the raw prompt and the enhanced one. The handler does not
      look at `isGenerating`. */
  function Start(s: Snapshot): (r: (Snapshot, Option<Pending>))
    ensures r.1.None? <==> Blank(s.prompt)
    ensures r.1.None? ==> r.0 == s
    ensures r.1.Some? ==>
      && r.0.generation == GenerationState(true, None, ProgressMessages[0])
      && r.0.wallpapers == s.wallpapers && r.0.prompt == s.prompt
      && r.1.value.interval == s.nextInterval && r.0.nextInterval == s.nextInterval + 1
      && r.0.intervals == s.intervals[s.nextInterval := 0]
      && r.1.value.prompt == s.prompt && r.1.value.aspectRatio == s.aspectRatio
      && r.1.value.enhancedPrompt == EnhancePrompt(s.prompt)
    ensures r.0.activeCategory == s.activeCategory && r.0.searchQuery == s.searchQuery
    ensures r.0.aspectRatio == s.aspectRatio
  {
    TrimEmptyIffBlank(s.prompt);
    if Trim(s.prompt) == "" then (s, None)
    else
      var id := s.nextInterval;
      var s' := s.(generation := GenerationState(true, None, ProgressMessages[0]),
                   intervals := s.intervals[id := 0],
                   nextInterval := id + 1);
      (s', Some(Pending(s.prompt, s.aspectRatio, id, EnhancePrompt(s.prompt))))
  }

  /** One firing of interval `id` (App.tsx:43-46): its index moves on by one
      modulo 5 and the panel's message becomes the message at that index;
      `isGenerating` and `error` are kept from the previous state. A cleared
      interval never fires. */
  function Tick(s: Snapshot, id: nat): (r: Snapshot)
    ensures id !in s.intervals ==> r == s
    ensures id in s.intervals ==>
      && id in r.intervals && r.intervals[id] == (s.intervals[id] + 1) % |ProgressMessages|
      && r.generation.progressMessage == ProgressMessages[r.intervals[id]]
    ensures id in s.intervals ==> r.intervals == s.intervals[id := (s.intervals[id] + 1) % |ProgressMessages|]
    ensures r.activeCategory == s.activeCategory && r.searchQuery == s.searchQuery
    ensures r.aspectRatio == s.aspectRatio
    ensures r.generation.isGenerating == s.generation.isGenerating
    ensures r.generation.error == s.generation.error
    ensures r.wallpapers == s.wallpapers && r.prompt == s.prompt && r.nextInterval == s.nextInterval
  {
    if id !in s.intervals then s
    else
      var msgIndex := (s.intervals[id] + 1) % |ProgressMessages|;
      s.(intervals := s.intervals[id := msgIndex],
         generation := s.generation.(progressMessage := ProgressMessages[msgIndex]))
  }

  /** The handler after its `await` (App.tsx:50-71). On success the interval
      is cleared, the new record goes in front of the current gallery, the
      prompt is emptied and the panel is idle. On failure only the panel
      changes, to the fixed error; the interval is not cleared. */
  function Settle(s: Snapshot, p: Pending, outcome: Result<string, GeminiService.ServiceError>, now: nat): (r: Snapshot)
    ensures r.activeCategory == s.activeCategory && r.searchQuery == s.searchQuery
    ensures r.aspectRatio == s.aspectRatio && r.nextInterval == s.nextInterval
    ensures outcome.Ok? ==>
      && r.wallpapers == [NewWallpaper(p, outcome.value, now)] + s.wallpapers
      && r.prompt == "" && r.generation == Idle
      && r.intervals == s.intervals - {p.interval}
    ensures outcome.Err? ==>
      && r.wallpapers == s.wallpapers && r.prompt == s.prompt
      && r.generation == Failed && r.intervals == s.intervals
  {
    match outcome
    case Ok(url) =>
      s.(intervals := s.intervals - {p.interval},
         wallpapers := [NewWallpaper(p, url, now)] + s.wallpapers,
         prompt := "",
         generation := Idle)
    case Err(_) =>
      s.(generation := Failed)
  }

  /** The Generate button (App.tsx:155-157): disabled while a request is out
      or while the prompt is blank, otherwise it runs the handler. */
  function PressGenerate(s: Snapshot): (r: (Snapshot, Option<Pending>))
    ensures s.generation.isGenerating ==> r == (s, None)
    ensures !s.generation.isGenerating ==> r == Start(s)
  {
    if s.generation.isGenerating || Trim(s.prompt) == "" then (s, None) else Start(s)
  }

  /** Everything that can happen to the component. */
  datatype Event =
    | EditPrompt(text: string)
    | PressTag(tag: string)
    | PickRatio(ratio: AspectRatio)
    | PickCategory(category: Category)
    | EditQuery(query: string)
    | ClearFilters
    | ClickGenerate
    | IntervalFired(id: nat)
    | Resolved(pending: Pending, outcome: Result<string, GeminiService.ServiceError>, now: nat)

  /** The state after one event. A `Resolved` event may carry any pending
      call, so runs over-approximate the ones the browser can produce. */
  function Step(s: Snapshot, e: Event): (r: Snapshot)
    ensures r.nextInterval == s.nextInterval || (e.ClickGenerate? && r.nextInterval == s.nextInterval + 1)
    ensures !(e.ClickGenerate? || e.IntervalFired? || e.Resolved?) ==>
      r.generation == s.generation && r.intervals == s.intervals && r.wallpapers == s.wallpapers
  {
    match e
    case EditPrompt(text) => s.(prompt := text)
    case PressTag(tag) => s.(prompt := Gallery.AppendTag(s.prompt, tag))
    case PickRatio(ratio) => s.(aspectRatio := ratio)
    case PickCategory(category) => s.(activeCategory := category)
    case EditQuery(query) => s.(searchQuery := query)
    case ClearFilters => s.(searchQuery := "", activeCategory := All)
    case ClickGenerate => PressGenerate(s).0
    case IntervalFired(id) => Tick(s, id)
    case Resolved(p, outcome, now) => Settle(s, p, outcome, now)
  }

  /** The state after a sequence of events, in order. */
  function Run(s: Snapshot, events: seq<Event>): (r: Snapshot)
    ensures s.nextInterval <= r.nextInterval <= s.nextInterval + |events|
    decreases |events|
  {
    if events == [] then s else Run(Step(s, events[0]), events[1..])
  }

  /** Starting an attempt keeps the state consistent. */
  lemma StartPreservesValid(s: Snapshot)
    requires Valid(s)
    ensures Valid(Start(s).0)
  {
    if !Blank(s.prompt) {
      var r := Start(s).0;
      assert ProgressMessages[0] in ProgressMessages;
      assert PanelValid(r.generation);
      assert IntervalsValid(r.intervals, r.nextInterval);
    }
  }

  /** A firing of an interval keeps the state consistent. */
  lemma TickPreservesValid(s: Snapshot, id: nat)
    requires Valid(s)
    ensures Valid(Tick(s, id))
  {
    if id in s.intervals {
      var r := Tick(s, id);
      assert r.intervals[id] < |ProgressMessages|;
      assert r.generation.progressMessage in ProgressMessages;
      assert PanelValid(r.generation);
      assert IntervalsValid(r.intervals, r.nextInterval);
    }
  }

  /** Settling an attempt, either way, keeps the state consistent. */
  lemma SettlePreservesValid(s: Snapshot, p: Pending, outcome: Result<string, GeminiService.ServiceError>, now: nat)
    requires Valid(s)
    ensures Valid(Settle(s, p, outcome, now))
  {
    var r := Settle(s, p, outcome, now);
    if outcome.Ok? {
      var w := NewWallpaper(p, outcome.value, now);
      assert r.wallpapers == [w] + s.wallpapers;
      assert GalleryValid(r.wallpapers);
      assert IntervalsValid(r.intervals, r.nextInterval);
    } else {
      assert PanelValid(r.generation);
    }
  }

  /** Every event keeps the state consistent. */
  lemma StepPreservesValid(s: Snapshot, e: Event)
    requires Valid(s)
    ensures Valid(Step(s, e))
  {
    match e
    case ClickGenerate =>
      StartPreservesValid(s);
      assert Step(s, e) == s || Step(s, e) == Start(s).0;
    case IntervalFired(id) =>
      TickPreservesValid(s, id);
    case Resolved(p, outcome, now) =>
      SettlePreservesValid(s, p, outcome, now);
    case _ =>
  }

  /** Every run from a consistent state stays consistent: in particular the
      progress message is always empty or one of the five messages, and
      while a request is out it is one of the five. */
  lemma {:induction false} RunPreservesValid(s: Snapshot, events: seq<Event>)
    requires Valid(s)
    ensures Valid(Run(s, events))
    decreases |events|
  {
    if events != [] {
      StepPreservesValid(s, events[0]);
      RunPreservesValid(Step(s, events[0]), events[1..]);
    }
  }

  /** `a` is what remains of `b` after dropping a prefix. */
  ghost predicate IsSuffix(a: seq<Wallpaper>, b: seq<Wallpaper>) {
    |a| <= |b| && b[|b| - |a|..] == a
  }

  /** One event either leaves the gallery alone or puts one record in front
      of it. */
  lemma StepKeepsGallery(s: Snapshot, e: Event)
    ensures var ws := Step(s, e).wallpapers;
      ws == s.wallpapers || (|ws| == |s.wallpapers| + 1 && ws[1..] == s.wallpapers)
  {
    match e
    case ClickGenerate =>
      assert Step(s, e) == s || Step(s, e) == Start(s).0;
    case Resolved(p, outcome, now) =>
      if outcome.Ok? {
        var ws := [NewWallpaper(p, outcome.value, now)] + s.wallpapers;
        assert Step(s, e).wallpapers == ws;
        assert ws[1..] == s.wallpapers;
      }
    case _ =>
  }

  /** The gallery never loses a record: every run only puts records in
      front of it. */
  lemma {:induction false} RunKeepsGallery(s: Snapshot, events: seq<Event>)
    ensures IsSuffix(s.wallpapers, Run(s, events).wallpapers)
    decreases |events|
  {
    if events != [] {
      var t := Step(s, events[0]);
      StepKeepsGallery(s, events[0]);
      RunKeepsGallery(t, events[1..]);
      assert Run(s, events) == Run(t, events[1..]);
      var u := Run(t, events[1..]).wallpapers;
      var a, b := |t.wallpapers|, |s.wallpapers|;
      assert t.wallpapers[a - b..] == s.wallpapers;
      assert u[|u| - a..][a - b..] == u[|u| - b..];
    } else {
      assert Run(s, events) == s;
    }
  }

  /** `k` firings of interval `id` with nothing in between. */
  function Ticks(s: Snapshot, id: nat, k: nat): Snapshot
    decreases k
  {
    if k == 0 then s else Tick(Ticks(s, id, k - 1), id)
  }

  /** Moving a reduced index on by one and reducing again is reducing the
      next number. */
  lemma NextIndex(n: nat)
    ensures (n % |ProgressMessages| + 1) % |ProgressMessages| == (n + 1) % |ProgressMessages|
  {
    assert |ProgressMessages| == 5;
  }

  /** Firings only touch the progress message and the interval indices:
      `isGenerating`, `error` and the gallery stay put. */
  lemma {:induction false} TicksKeepState(s: Snapshot, id: nat, k: nat)
    ensures Ticks(s, id, k).generation.isGenerating == s.generation.isGenerating
    ensures Ticks(s, id, k).generation.error == s.generation.error
    ensures Ticks(s, id, k).wallpapers == s.wallpapers
  {
    if k > 0 {
      TicksKeepState(s, id, k - 1);
    }
  }

  /** After `k` firings of a live interval its index has moved on by `k`
      modulo 5, and the interval is still live. */
  lemma {:induction false} TicksIndex(s: Snapshot, id: nat, k: nat)
    requires id in s.intervals && s.intervals[id] < |ProgressMessages|
    ensures id in Ticks(s, id, k).intervals
    ensures Ticks(s, id, k).intervals[id] == (s.intervals[id] + k) % |ProgressMessages|
  {
    var n := |ProgressMessages|;
    assert n == 5;
    if k > 0 {
      TicksIndex(s, id, k - 1);
      var prev := Ticks(s, id, k - 1);
      var j := s.intervals[id] + k - 1;
      assert prev.intervals[id] == j % n;
      NextIndex(j);
      assert Ticks(s, id, k).intervals[id] == (j % n + 1) % n;
    } else {
      assert Ticks(s, id, k) == s;
      assert s.intervals[id] % n == s.intervals[id];
    }
  }

  /** A live interval cycles through the messages: after `k > 0` firings
      the panel shows the message at the interval's index, which has moved
      on by `k` modulo 5. */
  lemma TicksCycle(s: Snapshot, id: nat, k: nat)
    requires id in s.intervals && s.intervals[id] < |ProgressMessages| && k > 0
    ensures Ticks(s, id, k).generation.progressMessage ==
            ProgressMessages[(s.intervals[id] + k) % |ProgressMessages|]
  {
    TicksIndex(s, id, k - 1);
    TicksIndex(s, id, k);
    assert Ticks(s, id, k) == Tick(Ticks(s, id, k - 1), id);
  }

  /** After a start, `k` firings of the new interval show message `k mod 5`. */
  lemma StartThenTicks(s: Snapshot, k: nat)
    requires !Blank(s.prompt)
    ensures var (s1, p) := Start(s);
      Ticks(s1, p.value.interval, k).generation.progressMessage == ProgressMessages[k % |ProgressMessages|]
  {
    var (s1, p) := Start(s);
    if k > 0 {
      TicksCycle(s1, p.value.interval, k);
    }
  }

  /** A success clears its interval: later firings of it change nothing. */
  lemma SuccessStopsInterval(s: Snapshot, p: Pending, url: string, now: nat, k: nat)
    ensures var done := Settle(s, p, Ok(url), now); Ticks(done, p.interval, k) == done
  {
    var done := Settle(s, p, Ok(url), now);
    if k > 0 {
      SuccessStopsInterval(s, p, url, now, k - 1);
    }
  }

  /** A failure does not clear its interval: each later firing writes a
      progress message over the terminal state while the panel reports the
      error and is no longer generating. */
  lemma FailureLeavesIntervalRunning(s: Snapshot, p: Pending, e: GeminiService.ServiceError, now: nat, k: nat)
    requires p.interval in s.intervals && s.intervals[p.interval] < |ProgressMessages| && k > 0
    ensures var failed := Settle(s, p, Err(e), now);
      var later := Ticks(failed, p.interval, k);
      && later.generation.isGenerating == false
      && later.generation.error == Some(FailureMessage)
      && later.generation.progressMessage in ProgressMessages
      && later.generation.progressMessage != ""
  {
    var failed := Settle(s, p, Err(e), now);
    TicksKeepState(failed, p.interval, k);
    TicksCycle(failed, p.interval, k);
  }

  /** The handler itself does not enforce single flight: called while a
      request is out, it starts a second one with its own interval. */
  lemma HandlerIsReentrant(s: Snapshot)
    requires Valid(s) && s.generation.isGenerating && !Blank(s.prompt)
    ensures Start(s).1.Some?
    ensures |Start(s).0.intervals| == |s.intervals| + 1
    ensures s.intervals.Keys <= Start(s).0.intervals.Keys
  {
    assert s.nextInterval !in s.intervals;
  }

  /** The image part of a sample service reply. */
  const SamplePart: GeminiService.Part :=
    GeminiService.Part(None, Some(GeminiService.InlineData(Some("QUJD"), Some("image/png"))))

  /** A sample service reply whose only candidate carries one image part. */
  const SampleReply: GeminiService.Reply :=
    GeminiService.Replied(GeminiService.Response(Some([
      GeminiService.Candidate(Some(GeminiService.Content(Some([SamplePart]))))])))

  /** A generation from the initial state with prompt "neon city" and the
      sample reply puts a new record in front of the seed gallery and leaves
      the panel idle with the prompt cleared. */
  lemma NeonCityScenario(now: nat)
    ensures Start(Initial.(prompt := "neon city")).1.Some?
    ensures var started := Start(Initial.(prompt := "neon city"));
      var s2 := Settle(started.0, started.1.value, GeminiService.Outcome(SampleReply), now);
      && s2.wallpapers == [Wallpaper(DecimalString(now), "data:image/png;base64,QUJD", "neon city",
                                     Abstract, Landscape, true)] + InitialWallpapers
      && s2.generation == Idle && s2.prompt == ""
  {
    var s := Initial.(prompt := "neon city");
    assert s.prompt[0] == 'n' && !IsWhiteSpace('n');
    assert GeminiService.ResponseParts(SampleReply.response) == [SamplePart];
    assert GeminiService.FirstInline([SamplePart]) == Some(0);
    assert GeminiService.DataUri(SamplePart.inlineData.value) == GeminiService.DataUriPrefix + "QUJD";
    assert GeminiService.DataUriPrefix + "QUJD" == "data:image/png;base64,QUJD";
    assert GeminiService.Outcome(SampleReply) == Ok("data:image/png;base64,QUJD");
  }
}
