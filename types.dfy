/** The records of the gallery (types.ts) and its fixed configuration data
    (constants.ts). */
module Types {

  datatype Option<+T> = None | Some(value: T)

  /** The outcome of an operation that either returns a value or throws. */
  datatype Result<+T, +E> = Ok(value: T) | Err(error: E)

  /** The category union of types.ts. 'All' belongs to the same type, so a
      wallpaper record may in principle carry it. */
  datatype Category = All | Abstract | Cyberpunk | Nature | Minimalist | Space

  /** The three aspect-ratio literals '1:1', '16:9' and '9:16'. */
  datatype AspectRatio = Square | Landscape | Portrait

  /** The literal text of an aspect ratio, as handed to the image API. */
  function RatioText(r: AspectRatio): string {
    match r
    case Square => "1:1"
    case Landscape => "16:9"
    case Portrait => "9:16"
  }

  /** A displayable image with its descriptive metadata. */
  datatype Wallpaper = Wallpaper(
    id: string,
    url: string,
    prompt: string,
    category: Category,
    aspectRatio: AspectRatio,
    isAIGenerated: bool)

  /** The generation state shown by the generator panel; `error` is null
      when `None`. */
  datatype GenerationState = GenerationState(
    isGenerating: bool,
    error: Option<string>,
    progressMessage: string)

  /** The category buttons, in display order. */
  const Categories: seq<Category> := [All, Abstract, Nature, Cyberpunk, Space, Minimalist]

  /** The seed gallery the application starts with. */
  const InitialWallpapers: seq<Wallpaper> := [
    Wallpaper("1", "https://picsum.photos/id/10/1920/1080",
      "Hyper-realistic mountain landscape with 3D depth", Nature, Landscape, false),
    Wallpaper("2", "https://picsum.photos/id/20/1080/1920",
      "Abstract liquid chrome fluid art with neon highlights", Abstract, Portrait, false),
    Wallpaper("3", "https://picsum.photos/id/30/1920/1080",
      "Cyberpunk city street at night, rainy with holograms", Cyberpunk, Landscape, false),
    Wallpaper("4", "https://picsum.photos/id/40/1920/1080",
      "Deep space nebula with swirling 3D gas clouds", Space, Landscape, false)
  ]

  /** The descriptive tokens appended to every generation prompt, in order. */
  const PromptEnhancers: seq<string> := [
    "high-resolution 4k",
    "octane render",
    "cinematic lighting",
    "deep parallax depth",
    "intricate details",
    "volumetric lighting",
    "3D texture",
    "unreal engine 5"
  ]

  /** Every category has exactly one button. */
  lemma CategoriesListEachOnce(c: Category)
    ensures multiset(Categories)[c] == 1
  {
    assert Categories == [All] + [Abstract] + [Nature] + [Cyberpunk] + [Space] + [Minimalist];
  }
}
