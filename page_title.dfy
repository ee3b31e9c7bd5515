/** The document title that the page-title component derives from the current path. */
module PageTitle {
  import opened JsText

  const BaseTitle := "Inderpreet Singh Photography"
  const WorkPrefix := "/work/"

  /**
   * `getTitle`: the root path gives the base title; a path under `/work/` gives
   * its last segment, first character upper-cased, as "<Segment> Photography";
   * any other path gives itself without the first character, first character
   * upper-cased, as "<Page>". Both of the latter end in " - " and the base title.
   */
  function GetTitle(path: string): (title: string)
    ensures EndsWith(title, BaseTitle)
  {
    if path == "/" then BaseTitle
    else if StartsWith(path, WorkPrefix) then UpperFirst(LastSegment(path)) + " Photography - " + BaseTitle
    else UpperFirst(SliceFromOne(path)) + " - " + BaseTitle
  }

  /** Only the root path has the bare base title; every other title is longer. */
  lemma BaseTitleOnlyAtRoot(path: string)
    ensures GetTitle(path) == BaseTitle <==> path == "/"
  {
    if path != "/" {
      assert |GetTitle(path)| >= |" - " + BaseTitle|;
    }
  }

  /** The last segment of a path ending in `/<segment>` is that segment. */
  lemma LastSegmentAfterSlash(prefix: string, segment: string)
    requires |prefix| > 0 && prefix[|prefix| - 1] == '/' && '/' !in segment
    ensures LastSegment(prefix + segment) == segment
  {
    var path := prefix + segment;
    var k := LastIndexOf(path, '/');
    assert path[|prefix| - 1] == '/';
    assert k >= |prefix| - 1;
    assert path[k + 1..] == segment;
  }

  /** A category page `/work/<segment>` is titled by its segment, with only the first character upper-cased. */
  lemma WorkCategoryTitle(segment: string)
    requires '/' !in segment
    ensures GetTitle(WorkPrefix + segment) == UpperFirst(segment) + " Photography - " + BaseTitle
  {
    assert (WorkPrefix + segment)[..|WorkPrefix|] == WorkPrefix;
    LastSegmentAfterSlash(WorkPrefix, segment);
  }

  /** Under `/work/`, a deeper path is titled by its last segment only. */
  lemma NestedWorkPathTitle(middle: string, segment: string)
    requires '/' !in segment
    ensures GetTitle(WorkPrefix + middle + "/" + segment) == UpperFirst(segment) + " Photography - " + BaseTitle
  {
    var prefix := WorkPrefix + middle + "/";
    assert WorkPrefix + middle + "/" + segment == prefix + segment;
    assert (prefix + segment)[..|WorkPrefix|] == WorkPrefix;
    LastSegmentAfterSlash(prefix, segment);
  }

  /** The bare `/work/` path has an empty segment: its title starts with " Photography". */
  lemma WorkRootTitle()
    ensures GetTitle(WorkPrefix) == " Photography - " + BaseTitle
  {
    WorkCategoryTitle("");
    assert WorkPrefix + "" == WorkPrefix;
  }

  /**
   * Any other page `/<page>` is titled by the page name with its first character
   * upper-cased (e.g. `/work` gives "Work - ...").
   */
  lemma OtherPageTitle(page: string)
    requires page != [] && !StartsWith("/" + page, WorkPrefix)
    ensures GetTitle("/" + page) == UpperFirst(page) + " - " + BaseTitle
  {
    assert SliceFromOne("/" + page) == page;
  }

  lemma WorkIndexTitle()
    ensures GetTitle("/work") == "Work - " + BaseTitle
  {
    assert !StartsWith("/work", WorkPrefix);
    OtherPageTitle("work");
    assert UpperFirst("work") == "Work";
  }
}
