/**
 * The category page of the portfolio: which category it asks the image server
 * for, and the gallery/carousel state (view mode, selected image, selected
 * index) that the arrow buttons, the keyboard, the image cards and the view
 * toggle change.
 *
 * Each event is a function from state to state; the class `CategoryPage` holds
 * the page's state fields and its handlers are proved to perform exactly those
 * transitions.
 */
module PortfolioCategory {
  import opened Optional
  import opened JsText
  import ImageService

  /** The client's view of one listed image: the descriptor the server sends. */
  type Image = ImageService.Descriptor

  const DefaultCategory := "Portraits"

  /**
   * The category requested from the server: the route parameter capitalised like
   * the server does, or `Portraits` when the parameter is missing or empty.
   */
  function RequestedCategory(param: Option<string>): (category: string)
    ensures category != [] && IsCapitalized(category)
    ensures param.Some? && param.value != [] ==> |category| == |param.value| && ToLower(category) == ToLower(param.value)
    ensures param.None? || param.value == [] ==> category == DefaultCategory
  {
    match param
    case Some(c) =>
      if c != [] then
        CapitalizeIdempotent(c);
        Capitalize(c)
      else DefaultCategory
    case None => DefaultCategory
  }

  datatype ViewMode = Gallery | Carousel
  datatype Direction = Prev | Next

  datatype PageState = PageState(
    viewMode: ViewMode,
    selectedImage: Option<Image>,
    selectedIndex: int,
    images: seq<Image>)

  const Initial := PageState(Gallery, None, 0, [])

  /** `selectedImage?.id`: undefined when nothing is selected. */
  function SelectedId(s: PageState): Option<string> {
    match s.selectedImage
    case Some(image) => Some(image.id)
    case None => None
  }

  /**
   * `images.findIndex(img => img.id === id)`: the first position whose id is
   * `id`, or -1. An undefined id matches no image.
   */
  function FindIndex(images: seq<Image>, id: Option<string>): (r: int)
    ensures -1 <= r < |images|
    ensures r >= 0 ==> Some(images[r].id) == id
    ensures forall k :: 0 <= k < |images| && (r == -1 || k < r) ==> Some(images[k].id) != id
  {
    if images == [] then -1
    else if Some(images[0].id) == id then 0
    else
      var t := FindIndex(images[1..], id);
      if t == -1 then -1 else t + 1
  }

  /**
   * `navigateImage`: from the position of the selected image in the list, `Prev`
   * steps back if there is a previous image and `Next` steps forward if there is
   * a next one; every other case leaves the state as it is. A step selects the
   * image at the new position and records that position.
   */
  function Navigate(s: PageState, direction: Direction): (r: PageState)
    ensures r.viewMode == s.viewMode && r.images == s.images
    ensures r == s || (0 <= r.selectedIndex < |s.images| && r.selectedImage == Some(s.images[r.selectedIndex]))
  {
    var current := FindIndex(s.images, SelectedId(s));
    if direction == Prev && current > 0 then
      s.(selectedImage := Some(s.images[current - 1]), selectedIndex := current - 1)
    else if direction == Next && current < |s.images| - 1 then
      s.(selectedImage := Some(s.images[current + 1]), selectedIndex := current + 1)
    else s
  }

  /** The close button and the Escape key: no selection, back to the gallery. */
  function CloseCarousel(s: PageState): (r: PageState)
    ensures r.selectedImage.None? && r.viewMode == Gallery
    ensures r.images == s.images && r.selectedIndex == s.selectedIndex
  {
    s.(selectedImage := None, viewMode := Gallery)
  }

  /** The keydown handler: ignored without a selection; arrows navigate, Escape closes. */
  function KeyDown(s: PageState, key: string): (r: PageState)
    ensures r.images == s.images
    ensures s.selectedImage.None? ==> r == s
  {
    if s.selectedImage.None? then s
    else if key == "ArrowLeft" then Navigate(s, Prev)
    else if key == "ArrowRight" then Navigate(s, Next)
    else if key == "Escape" then CloseCarousel(s)
    else s
  }

  /** A click on the card at `index` of the gallery opens the carousel on that image. */
  function ClickCard(s: PageState, index: int): (r: PageState)
    requires 0 <= index < |s.images|
    ensures r.viewMode == Carousel && r.selectedIndex == index && r.selectedImage == Some(s.images[index])
    ensures r.images == s.images
  {
    s.(selectedImage := Some(s.images[index]), selectedIndex := index, viewMode := Carousel)
  }

  /**
   * The view toggle: from the gallery it selects the first image (undefined for an
   * empty list), index 0, and switches to the carousel; from the carousel it
   * switches back to the gallery and clears the selection.
   */
  function ToggleView(s: PageState): (r: PageState)
    ensures r.images == s.images
    ensures r.viewMode != s.viewMode
  {
    if s.viewMode == Gallery then
      s.(selectedImage := if |s.images| > 0 then Some(s.images[0]) else None,
         selectedIndex := 0,
         viewMode := Carousel)
    else s.(viewMode := Gallery, selectedImage := None)
  }

  /** A completed fetch replaces the image list; the selection is left as it was. */
  function LoadImages(s: PageState, images: seq<Image>): (r: PageState)
    ensures r.images == images
    ensures r.viewMode == s.viewMode && r.selectedImage == s.selectedImage && r.selectedIndex == s.selectedIndex
  {
    s.(images := images)
  }

  /** The carousel is rendered unless the view is the gallery or nothing is selected. */
  predicate ShowsCarousel(s: PageState) {
    !(s.viewMode == Gallery || s.selectedImage.None?)
  }

  /** The carousel's previous button is disabled at index 0. */
  predicate PrevDisabled(s: PageState) {
    s.selectedIndex == 0
  }

  /** The carousel's next button is disabled at the last index. */
  predicate NextDisabled(s: PageState) {
    s.selectedIndex == |s.images| - 1
  }

  /** A selection is the image at the selected index, and is only held in carousel mode. */
  predicate SelectionValid(s: PageState) {
    s.selectedImage.Some? ==>
      0 <= s.selectedIndex < |s.images| &&
      s.images[s.selectedIndex] == s.selectedImage.value &&
      s.viewMode == Carousel
  }

  predicate UniqueIds(images: seq<Image>) {
    forall j, k :: 0 <= j < k < |images| ==> images[j].id != images[k].id
  }

  // ---------------------------------------------------------------------------
  // Properties

  /** The category asked for is already in the server's canonical form, so the server looks up that same folder. */
  lemma RequestedCategoryIsServerFolder(param: Option<string>)
    ensures ImageService.Folder(RequestedCategory(param)) == RequestedCategory(param)
  {
    CapitalizeFixedPoints(RequestedCategory(param));
  }

  /** Route parameters that differ only in ASCII case request the same category. */
  lemma RequestedCategoryIgnoresCase(a: string, b: string)
    requires ToLower(a) == ToLower(b)
    ensures RequestedCategory(Some(a)) == RequestedCategory(Some(b))
  {
    CapitalizeIgnoresCase(a, b);
  }

  /**
   * `Prev` moves to the previous position only when the selected image is found
   * at a position above 0; `Next` moves to the next position only when it is
   * found before the last one (or not found in a non-empty list); otherwise the
   * state is unchanged.
   */
  lemma NavigateSteps(s: PageState)
    ensures var current := FindIndex(s.images, SelectedId(s));
      (if current > 0
       then Navigate(s, Prev).selectedIndex == current - 1 && Navigate(s, Prev).selectedImage == Some(s.images[current - 1])
       else Navigate(s, Prev) == s) &&
      (if current < |s.images| - 1
       then Navigate(s, Next).selectedIndex == current + 1 && Navigate(s, Next).selectedImage == Some(s.images[current + 1])
       else Navigate(s, Next) == s)
  {
  }

  /** A selected image that is not in the list: `Prev` does nothing and `Next` jumps to the first image. */
  lemma NavigateFromUnlistedImage(s: PageState)
    requires s.selectedImage.Some?
    requires forall k :: 0 <= k < |s.images| ==> s.images[k].id != s.selectedImage.value.id
    ensures Navigate(s, Prev) == s
    ensures |s.images| > 0 ==>
      Navigate(s, Next).selectedIndex == 0 && Navigate(s, Next).selectedImage == Some(s.images[0])
    ensures |s.images| == 0 ==> Navigate(s, Next) == s
  {
    assert FindIndex(s.images, SelectedId(s)) == -1;
  }

  /** With unique ids, the position found for a valid selection is the selected index. */
  lemma FindSelected(s: PageState)
    requires SelectionValid(s) && s.selectedImage.Some? && UniqueIds(s.images)
    ensures FindIndex(s.images, SelectedId(s)) == s.selectedIndex
  {
    assert Some(s.images[s.selectedIndex].id) == SelectedId(s);
  }

  /**
   * On a valid selection in a list with unique ids, an arrow button is disabled
   * exactly when pressing it would leave the state unchanged.
   */
  lemma ButtonsMatchNavigation(s: PageState)
    requires SelectionValid(s) && s.selectedImage.Some? && UniqueIds(s.images)
    ensures Navigate(s, Prev) == s <==> PrevDisabled(s)
    ensures Navigate(s, Next) == s <==> NextDisabled(s)
  {
    FindSelected(s);
  }

  /** Every handler of a user event keeps the selection valid. */
  lemma EventsKeepSelectionValid(s: PageState, direction: Direction, key: string, index: int)
    requires SelectionValid(s)
    ensures s.selectedImage.Some? ==> SelectionValid(Navigate(s, direction))
    ensures SelectionValid(KeyDown(s, key))
    ensures 0 <= index < |s.images| ==> SelectionValid(ClickCard(s, index))
    ensures SelectionValid(ToggleView(s))
    ensures SelectionValid(CloseCarousel(s))
  {
  }

  /** The initial state has a valid (empty) selection, so every reachable state before a reload has one. */
  lemma InitialSelectionValid()
    ensures SelectionValid(Initial) && !ShowsCarousel(Initial)
  {
  }

  /**
   * A reload of the image list keeps the old selection, which need not be in the
   * new list: the selection is then no longer valid.
   */
  lemma ReloadCanInvalidateSelection(image: Image)
    ensures var s := ClickCard(LoadImages(Initial, [image]), 0);
      SelectionValid(s) && !SelectionValid(LoadImages(s, []))
  {
  }

  /**
   * Key presses do nothing without a selection. With one, the left and right
   * arrows navigate, Escape clears it and returns to the gallery, and any other
   * key does nothing.
   */
  lemma KeyDownBehaviour(s: PageState, key: string)
    ensures s.selectedImage.None? ==> KeyDown(s, key) == s
    ensures s.selectedImage.Some? ==>
      KeyDown(s, "ArrowLeft") == Navigate(s, Prev) &&
      KeyDown(s, "ArrowRight") == Navigate(s, Next) &&
      KeyDown(s, "Escape").selectedImage.None? && KeyDown(s, "Escape").viewMode == Gallery
    ensures key != "ArrowLeft" && key != "ArrowRight" && key != "Escape" ==> KeyDown(s, key) == s
  {
  }

  /**
   * The toggle from the gallery selects the first image at index 0 in the
   * carousel; on an empty list nothing is selected, so the gallery stays on
   * screen. From the carousel it returns to the gallery with no selection.
   */
  lemma ToggleBehaviour(s: PageState)
    ensures s.viewMode == Gallery && |s.images| > 0 ==>
      ToggleView(s) == s.(selectedImage := Some(s.images[0]), selectedIndex := 0, viewMode := Carousel) &&
      ShowsCarousel(ToggleView(s))
    ensures s.viewMode == Gallery && |s.images| == 0 ==> !ShowsCarousel(ToggleView(s))
    ensures s.viewMode == Carousel ==> ToggleView(s).viewMode == Gallery && ToggleView(s).selectedImage.None?
    ensures ToggleView(s).selectedIndex == if s.viewMode == Gallery then 0 else s.selectedIndex
  {
  }

  /**
   * The carousel shows only in carousel mode with a selection, and then (for a
   * valid selection) its counter `selectedIndex + 1 / length` is in range.
   */
  lemma CarouselShowsSelection(s: PageState)
    requires ShowsCarousel(s)
    ensures s.viewMode == Carousel && s.selectedImage.Some?
    ensures SelectionValid(s) ==> 1 <= s.selectedIndex + 1 <= |s.images|
  {
  }

  /** A listing from the server has unique ids, so the arrow buttons agree with navigation on it. */
  lemma ServerListingHasUniqueIds(folder: string, files: seq<string>)
    ensures UniqueIds(ImageService.DescribeAll(folder, files))
  {
    ImageService.ListingIdsDistinct(folder, files);
  }

  // ---------------------------------------------------------------------------
  // The component's state

  class CategoryPage {
    var viewMode: ViewMode
    var selectedImage: Option<Image>
    var selectedIndex: int
    var filteredImages: seq<Image>

    function State(): PageState
      reads this
    {
      PageState(viewMode, selectedImage, selectedIndex, filteredImages)
    }

    constructor ()
      ensures State() == Initial
    {
      viewMode := Gallery;
      selectedImage := None;
      selectedIndex := 0;
      filteredImages := [];
    }

    /**
     * `fetchImages`: asks for the requested category; a successful fetch replaces
     * the image list, a failed one (`None`) leaves the state as it was.
     */
    method FetchImages(param: Option<string>, fetched: Option<seq<Image>>) returns (requested: string)
      modifies this
      ensures requested == RequestedCategory(param)
      ensures State() == if fetched.Some? then LoadImages(old(State()), fetched.value) else old(State())
    {
      requested := RequestedCategory(param);
      if fetched.Some? {
        filteredImages := fetched.value;
      }
    }

    method NavigateImage(direction: Direction)
      modifies this
      ensures State() == Navigate(old(State()), direction)
    {
      var currentIndex := FindIndex(filteredImages, SelectedId(State()));
      if direction == Prev && currentIndex > 0 {
        var newIndex := currentIndex - 1;
        selectedImage := Some(filteredImages[newIndex]);
        selectedIndex := newIndex;
      } else if direction == Next && currentIndex < |filteredImages| - 1 {
        var newIndex := currentIndex + 1;
        selectedImage := Some(filteredImages[newIndex]);
        selectedIndex := newIndex;
      }
    }

    method HandleKeyPress(key: string)
      modifies this
      ensures State() == KeyDown(old(State()), key)
    {
      if selectedImage.None? {
        return;
      }
      if key == "ArrowLeft" {
        NavigateImage(Prev);
      } else if key == "ArrowRight" {
        NavigateImage(Next);
      } else if key == "Escape" {
        selectedImage := None;
        viewMode := Gallery;
      }
    }

    method ClickImageCard(index: int)
      requires 0 <= index < |filteredImages|
      modifies this
      ensures State() == ClickCard(old(State()), index)
    {
      selectedImage := Some(filteredImages[index]);
      selectedIndex := index;
      viewMode := Carousel;
    }

    method ToggleViewMode()
      modifies this
      ensures State() == ToggleView(old(State()))
    {
      if viewMode == Gallery {
        selectedImage := if |filteredImages| > 0 then Some(filteredImages[0]) else None;
        selectedIndex := 0;
        viewMode := Carousel;
      } else {
        viewMode := Gallery;
        selectedImage := None;
      }
    }

    method Close()
      modifies this
      ensures State() == CloseCarousel(old(State()))
    {
      selectedImage := None;
      viewMode := Gallery;
    }
  }
}
