/** The `App` component (App.tsx) as an object: each `useState` slot is a
    field, each handler a method that updates the fields as the setters do,
    and the live intervals with their `msgIndex` counters are a field too.
    Every method is specified by the transition of module Generation it
    performs, so the lemmas proved there hold of the object. */
module AppComponent {
  import opened Types
  import opened Text
  import opened Generation
  import Gallery
  import GeminiService

  class App {
    var wallpapers: seq<Wallpaper>
    var activeCategory: Category
    var searchQuery: string
    var prompt: string
    var aspectRatio: AspectRatio
    var generation: GenerationState
    var intervals: map<nat, nat>
    var nextInterval: nat

    /** The component's state as a value. */
    function State(): Snapshot
      reads this
    {
      Snapshot(wallpapers, activeCategory, searchQuery, prompt, aspectRatio, generation, intervals, nextInterval)
    }

    ghost predicate Valid()
      reads this
    {
      Generation.Valid(State())
    }

    /** `filteredWallpapers`: the records the grid shows. */
    function FilteredWallpapers(): (r: seq<Wallpaper>)
      reads this
      ensures |r| <= |wallpapers|
      ensures forall w :: w in r <==> w in wallpapers && Gallery.Shown(w, activeCategory, searchQuery)
      ensures activeCategory == All && searchQuery == "" ==> r == wallpapers
    {
      Gallery.FilterAllEmptyIsIdentity(wallpapers);
      var r := Gallery.Filter(wallpapers, activeCategory, searchQuery);
      assert forall w :: w in r <==> w in wallpapers && Gallery.Shown(w, activeCategory, searchQuery) by {
        forall w {
          Gallery.FilterMember(wallpapers, activeCategory, searchQuery, w);
        }
      }
      r
    }

    constructor ()
      ensures Valid() && State() == Initial
    {
      wallpapers := InitialWallpapers;
      activeCategory := All;
      searchQuery := "";
      prompt := "";
      aspectRatio := Landscape;
      generation := Idle;
      intervals := map[];
      nextInterval := 1;
    }

    /** The handler up to its `await`: it checks only the prompt, never
        `isGenerating`. */
    method HandleGenerate() returns (pending: Option<Pending>)
      requires Valid()
      modifies this
      ensures Valid()
      ensures State() == Start(old(State())).0 && pending == Start(old(State())).1
    {
      StartPreservesValid(State());
      if Trim(prompt) == "" {
        return None;
      }
      var interval := nextInterval;
      generation := GenerationState(true, None, ProgressMessages[0]);
      intervals, nextInterval := intervals[interval := 0], interval + 1;
      var enhancedPrompt := EnhancePrompt(prompt);
      pending := Some(Pending(prompt, aspectRatio, interval, enhancedPrompt));
    }

    /** The interval callback of interval `id`. */
    method OnIntervalFired(id: nat)
      requires Valid()
      modifies this
      ensures Valid()
      ensures State() == Tick(old(State()), id)
    {
      if id in intervals {
        var msgIndex := (intervals[id] + 1) % |ProgressMessages|;
        intervals := intervals[id := msgIndex];
        generation := generation.(progressMessage := ProgressMessages[msgIndex]);
      }
    }

    /** The handler after its `await`: the image service runs on the SDK's
        `reply`, then the outcome is written back. Returns the request the
        service sent. */
    method Complete(p: Pending, reply: GeminiService.Reply, now: nat) returns (request: GeminiService.ImageRequest)
      requires Valid()
      modifies this
      ensures Valid()
      ensures request.text == GeminiService.Instruction(p.enhancedPrompt)
      ensures request.aspectRatio == RatioText(p.aspectRatio)
      ensures State() == Settle(old(State()), p, GeminiService.Outcome(reply), now)
    {
      var outcome;
      request, outcome := GeminiService.GenerateWallpaper(p.enhancedPrompt, reply, p.aspectRatio);
      match outcome {
        case Ok(url) =>
          intervals := intervals - {p.interval};
          var newWallpaper := NewWallpaper(p, url, now);
          wallpapers := [newWallpaper] + wallpapers;
          prompt := "";
          generation := Idle;
        case Err(_) =>
          generation := Failed;
      }
    }

    /** A click on the Generate button, which is disabled while generating
        or while the prompt is blank. */
    method ClickGenerate() returns (pending: Option<Pending>)
      requires Valid()
      modifies this
      ensures Valid()
      ensures State() == PressGenerate(old(State())).0 && pending == PressGenerate(old(State())).1
    {
      if generation.isGenerating || Trim(prompt) == "" {
        return None;
      }
      pending := HandleGenerate();
    }

    /** A click on a quick-tag button. */
    method ClickTag(tag: string)
      requires Valid()
      modifies this
      ensures Valid()
      ensures State() == Step(old(State()), PressTag(tag))
    {
      prompt := Gallery.AppendTag(prompt, tag);
    }

    /** Typing in the prompt box. */
    method EditPrompt(text: string)
      requires Valid()
      modifies this
      ensures Valid()
      ensures State() == Step(old(State()), Generation.EditPrompt(text))
    {
      prompt := text;
    }

    /** A click on an aspect-ratio button. */
    method PickRatio(ratio: AspectRatio)
      requires Valid()
      modifies this
      ensures Valid()
      ensures State() == Step(old(State()), Generation.PickRatio(ratio))
    {
      aspectRatio := ratio;
    }

    /** A click on a category button. */
    method PickCategory(category: Category)
      requires Valid()
      modifies this
      ensures Valid()
      ensures State() == Step(old(State()), Generation.PickCategory(category))
    {
      activeCategory := category;
    }

    /** Typing in the search box. */
    method EditQuery(query: string)
      requires Valid()
      modifies this
      ensures Valid()
      ensures State() == Step(old(State()), Generation.EditQuery(query))
    {
      searchQuery := query;
    }

    /** The "Clear filters" button of the empty grid. */
    method ClearFilters()
      requires Valid()
      modifies this
      ensures Valid()
      ensures State() == Step(old(State()), Generation.ClearFilters)
    {
      searchQuery := "";
      activeCategory := All;
    }
  }
}
