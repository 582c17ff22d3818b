/**
 * The featured-image list of the API server (`_images`): the curated ids
 * that the image index knows, as properties, sorted by
 * `(date or "", title, id)`.
 */
module ServingFeatured {
  import opened Wrappers
  import opened Features
  import opened TextOrder
  import opened Sorting

  /** `(f["date"] or "", f["title"], f["id"])`. */
  function FeatureKey(p: Props): SortKey {
    SortKey(Year(p), p.title, p.id.GetOr(""))
  }

  /** How many times `x` occurs in `s`. */
  function CountOf(s: seq<string>, x: string): nat {
    if |s| == 0 then 0
    else CountOf(s[..|s| - 1], x) + (if s[|s| - 1] == x then 1 else 0)
  }

  /** Each entry's own `id` property is its key, as loading arranges. */
  predicate IdsAsKeys(byImage: map<string, Props>) {
    forall id | id in byImage :: byImage[id].id == Some(id)
  }

  /** `[by_image[featured] for featured in images_json if featured in by_image]`. */
  function Selected(featured: seq<string>, byImage: map<string, Props>): (r: seq<Props>)
    ensures |r| <= |featured|
    ensures forall p | p in r :: exists id | id in featured && id in byImage :: p == byImage[id]
  {
    if |featured| == 0 then []
    else
      var init := featured[..|featured| - 1];
      var id := featured[|featured| - 1];
      assert featured == init + [id];
      Selected(init, byImage) + (if id in byImage then [byImage[id]] else [])
  }

  /**
   * Every known id contributes its entry once per occurrence in the curated
   * list: duplicates are kept, nothing is de-duplicated.
   */
  lemma {:induction false} SelectedMultiplicity(featured: seq<string>, byImage: map<string, Props>, id: string)
    requires IdsAsKeys(byImage)
    requires id in byImage
    ensures multiset(Selected(featured, byImage))[byImage[id]] == CountOf(featured, id)
    decreases |featured|
  {
    if |featured| > 0 {
      var init := featured[..|featured| - 1];
      var x := featured[|featured| - 1];
      SelectedMultiplicity(init, byImage, id);
      if x in byImage && x != id {
        assert byImage[x].id != byImage[id].id;
      }
    }
  }

  /** Only curated ids the index knows reach the list; unknown ids are dropped. */
  lemma SelectedKnownOnly(featured: seq<string>, byImage: map<string, Props>, p: Props)
    requires IdsAsKeys(byImage)
    requires p in Selected(featured, byImage)
    ensures p.id.Some? && p.id.value in byImage && p.id.value in featured && p == byImage[p.id.value]
  {
  }

  /** `_images`: the selected properties, sorted ascending by their key. */
  function FeaturedImages(featured: seq<string>, byImage: map<string, Props>): (r: seq<Props>)
    requires forall id | id in byImage :: byImage[id].id.Some?
    ensures multiset(r) == multiset(Selected(featured, byImage))
    ensures SortedBy(r, FeatureKey)
  {
    SortBy(Selected(featured, byImage), FeatureKey)
  }

  /**
   * Equal keys mean equal entries (the key ends with the id), so every sorted
   * arrangement of the selection is this one: the stability of Python's sort
   * cannot show.
   */
  lemma FeaturedImagesUnique(featured: seq<string>, byImage: map<string, Props>, other: seq<Props>)
    requires IdsAsKeys(byImage)
    requires SortedBy(other, FeatureKey)
    requires multiset(other) == multiset(Selected(featured, byImage))
    ensures other == FeaturedImages(featured, byImage)
  {
    forall i, j | 0 <= i < |other| && 0 <= j < |other| && FeatureKey(other[i]) == FeatureKey(other[j])
      ensures other[i] == other[j]
    {
      assert other[i] in multiset(Selected(featured, byImage));
      assert other[j] in multiset(Selected(featured, byImage));
      SelectedKnownOnly(featured, byImage, other[i]);
      SelectedKnownOnly(featured, byImage, other[j]);
    }
    SortedUnique(other, FeaturedImages(featured, byImage), FeatureKey);
  }
}
