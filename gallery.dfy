/** The gallery view (App.tsx): the category/search filter over the
    wallpaper list and the quick-tag rule that extends the prompt. */
module Gallery {
  import opened Types
  import opened Text

  /** `activeCategory === 'All' || w.category === activeCategory` */
  predicate MatchesCategory(w: Wallpaper, category: Category)
    ensures category == All || w.category == category ==> MatchesCategory(w, category)
    ensures MatchesCategory(w, category) && category != All ==> w.category == category
  {
    category == All || w.category == category
  }

  /** `w.prompt.toLowerCase().includes(searchQuery.toLowerCase())` */
  predicate MatchesSearch(w: Wallpaper, query: string)
    ensures query == "" ==> MatchesSearch(w, query)
    ensures MatchesSearch(w, query) ==> |query| <= |w.prompt|
  {
    Includes(ToLower(w.prompt), ToLower(query))
  }

  /** The filter callback: a record is shown when both tests pass. */
  predicate Shown(w: Wallpaper, category: Category, query: string)
    ensures category == All && query == "" ==> Shown(w, category, query)
    ensures Shown(w, category, query) ==> (category == All || w.category == category) && |query| <= |w.prompt|
  {
    MatchesCategory(w, category) && MatchesSearch(w, query)
  }

  /** `wallpapers.filter(...)`: the shown records, in their original order. */
  function Filter(ws: seq<Wallpaper>, category: Category, query: string): (r: seq<Wallpaper>)
    ensures |r| <= |ws|
    ensures forall i :: 0 <= i < |r| ==> r[i] in ws && Shown(r[i], category, query)
  {
    if ws == [] then []
    else (if Shown(ws[0], category, query) then [ws[0]] else []) + Filter(ws[1..], category, query)
  }

  /** Filtering a concatenation filters each half and keeps them in order. */
  lemma {:induction false} FilterConcat(a: seq<Wallpaper>, b: seq<Wallpaper>, category: Category, query: string)
    ensures Filter(a + b, category, query) == Filter(a, category, query) + Filter(b, category, query)
  {
    if a != [] {
      var head := if Shown(a[0], category, query) then [a[0]] else [];
      assert (a + b)[0] == a[0] && (a + b)[1..] == a[1..] + b;
      assert Filter(a + b, category, query) == head + Filter(a[1..] + b, category, query);
      assert Filter(a, category, query) == head + Filter(a[1..], category, query);
      FilterConcat(a[1..], b, category, query);
    } else {
      assert a + b == b;
    }
  }

  /** Every shown record is kept as often as it occurs and every hidden one
      is dropped: the result is exactly the shown part of the input. */
  lemma {:induction false} FilterCounts(ws: seq<Wallpaper>, category: Category, query: string, w: Wallpaper)
    ensures multiset(Filter(ws, category, query))[w] ==
            if Shown(w, category, query) then multiset(ws)[w] else 0
  {
    if ws != [] {
      var head := if Shown(ws[0], category, query) then [ws[0]] else [];
      var rest := Filter(ws[1..], category, query);
      assert Filter(ws, category, query) == head + rest;
      assert multiset(head + rest) == multiset(head) + multiset(rest);
      assert ws == [ws[0]] + ws[1..];
      assert multiset(ws) == multiset([ws[0]]) + multiset(ws[1..]);
      FilterCounts(ws[1..], category, query, w);
    }
  }

  /** A record appears in the view exactly when it is in the gallery and
      passes both tests. */
  lemma FilterMember(ws: seq<Wallpaper>, category: Category, query: string, w: Wallpaper)
    ensures w in Filter(ws, category, query) <==> w in ws && Shown(w, category, query)
  {
    FilterCounts(ws, category, query, w);
  }

  /** `r` can be obtained from `s` by deleting elements, keeping order. */
  ghost predicate IsSubsequence(r: seq<Wallpaper>, s: seq<Wallpaper>)
    decreases |s|
  {
    if r == [] then true
    else if s == [] then false
    else (r[0] == s[0] && IsSubsequence(r[1..], s[1..])) || IsSubsequence(r, s[1..])
  }

  /** The view never reorders the gallery. */
  lemma {:induction false} FilterIsSubsequence(ws: seq<Wallpaper>, category: Category, query: string)
    ensures IsSubsequence(Filter(ws, category, query), ws)
  {
    if ws != [] {
      var rest := Filter(ws[1..], category, query);
      FilterIsSubsequence(ws[1..], category, query);
      if Shown(ws[0], category, query) {
        assert Filter(ws, category, query) == [ws[0]] + rest;
        assert ([ws[0]] + rest)[1..] == rest;
      } else {
        assert Filter(ws, category, query) == rest;
      }
    }
  }

  /** Filtering the view again with the same settings changes nothing. */
  lemma {:induction false} FilterIdempotent(ws: seq<Wallpaper>, category: Category, query: string)
    ensures Filter(Filter(ws, category, query), category, query) == Filter(ws, category, query)
  {
    if ws != [] {
      var rest := Filter(ws[1..], category, query);
      FilterIdempotent(ws[1..], category, query);
      if Shown(ws[0], category, query) {
        var r := [ws[0]] + rest;
        assert Filter(ws, category, query) == r;
        assert r[0] == ws[0] && r[1..] == rest;
        assert Filter(r, category, query) == [ws[0]] + Filter(rest, category, query);
      } else {
        assert Filter(ws, category, query) == rest;
      }
    }
  }

  /** With category 'All' and an empty search the whole gallery is shown,
      in order. */
  lemma {:induction false} FilterAllEmptyIsIdentity(ws: seq<Wallpaper>)
    ensures Filter(ws, All, "") == ws
  {
    if ws != [] {
      assert ToLower("") == "";
      FilterAllEmptyIsIdentity(ws[1..]);
    }
  }

  /** The search ignores ASCII letter case: queries that lower-case alike
      show the same records. */
  lemma {:induction false} SearchIgnoresCase(ws: seq<Wallpaper>, category: Category, q1: string, q2: string)
    requires ToLower(q1) == ToLower(q2)
    ensures Filter(ws, category, q1) == Filter(ws, category, q2)
  {
    if ws != [] {
      SearchIgnoresCase(ws[1..], category, q1, q2);
    }
  }

  /** Under 'All', a record whose prompt contains the query in any letter
      case is shown. */
  lemma SearchFindsAnyCase(ws: seq<Wallpaper>, query: string, w: Wallpaper, k: nat)
    requires w in ws
    requires k + |query| <= |w.prompt|
    requires ToLower(w.prompt[k..k + |query|]) == ToLower(query)
    ensures w in Filter(ws, All, query)
  {
    var lowered := ToLower(w.prompt);
    ToLowerSlice(w.prompt, k, k + |query|);
    assert OccursAt(lowered, ToLower(query), k);
    IncludesIff(lowered, ToLower(query));
    FilterMember(ws, All, query, w);
  }

  /** The quick-tag buttons under the prompt box. */
  const QuickTags: seq<string> := ["Cyberpunk", "Crystal", "Neon", "Hyper-realistic", "Fractal", "Minimalist"]

  /** `prev ? `${prev}, ${tag}` : tag`: an empty prompt becomes the tag;
      any other prompt, even one of spaces, gets ", " and the tag. */
  function AppendTag(prev: string, tag: string): (r: string)
    ensures prev <= r && |tag| <= |r| && r[|r| - |tag|..] == tag
    ensures prev == "" ==> r == tag
    ensures prev != "" ==> |r| == |prev| + 2 + |tag| && r[|prev|..|prev| + 2] == ", "
  {
    if prev != "" then prev + ", " + tag else tag
  }

  /** Pressing the tag buttons one after another. */
  function AppendTags(prev: string, tags: seq<string>): string
    decreases |tags|
  {
    if tags == [] then prev else AppendTags(AppendTag(prev, tags[0]), tags[1..])
  }

  /** Starting from a non-empty prompt, pressing tags yields the prompt and
      the tags joined by ", ". */
  lemma {:induction false} AppendTagsJoins(prev: string, tags: seq<string>)
    requires prev != ""
    ensures AppendTags(prev, tags) == Join([prev] + tags, ", ")
    decreases |tags|
  {
    if tags != [] {
      var next := AppendTag(prev, tags[0]);
      AppendTagsJoins(next, tags[1..]);
      JoinSnoc([prev], tags[0], ", ");
      assert Join([prev], ", ") == prev;
      assert next == Join([prev] + [tags[0]], ", ");
      JoinFlatten([prev, tags[0]], tags[1..], ", ");
      assert [prev] + tags == [prev, tags[0]] + tags[1..];
    } else {
      assert [prev] + tags == [prev];
    }
  }

  /** Starting from an empty prompt, pressing non-empty tags yields the tags
      joined by ", ". */
  lemma TagsFromEmptyPrompt(tags: seq<string>)
    requires forall i :: 0 <= i < |tags| ==> tags[i] != ""
    ensures AppendTags("", tags) == Join(tags, ", ")
  {
    if tags != [] {
      AppendTagsJoins(tags[0], tags[1..]);
      assert [tags[0]] + tags[1..] == tags;
    }
  }

  /** No quick tag is empty. */
  lemma QuickTagsNonEmpty()
    ensures "" !in QuickTags
  {
    forall i | 0 <= i < |QuickTags|
      ensures |QuickTags[i]| > 0
    {
    }
  }

  /** Starting from an empty prompt, pressing any of the quick-tag buttons,
      in any order and any number of times, yields the pressed tags joined
      by ", ". */
  lemma QuickTagsFromEmptyPrompt(tags: seq<string>)
    requires forall i :: 0 <= i < |tags| ==> tags[i] in QuickTags
    ensures AppendTags("", tags) == Join(tags, ", ")
  {
    QuickTagsNonEmpty();
    TagsFromEmptyPrompt(tags);
  }
}
