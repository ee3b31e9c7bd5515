/**
 * The `/api/images/:category` handler of the image server: canonicalise the
 * requested category into a folder name, answer 404 when the folder is absent,
 * otherwise keep the directory entries with an allowed image extension that are
 * not background files, and describe each kept file.
 *
 * The filesystem is an input: `fs` maps a canonical folder name to the state of
 * the folder it resolves to under the images root.
 */
module ImageService {
  import opened JsText

  /** One gallery image as the API returns it. */
  datatype Descriptor = Descriptor(
    id: string,
    url: string,
    category: string,
    subcategory: string,
    title: string,
    year: string)

  /** What a folder lookup finds: nothing, a folder whose listing fails, or its entry names in listing order. */
  datatype Directory = Absent | Unreadable | Entries(names: seq<string>)

  /** The JSON body of a response. */
  datatype Body = ErrorMessage(error: string) | Images(images: seq<Descriptor>) | ServerFault

  datatype Response = Response(status: int, body: Body)

  const NotFoundMessage := "Category not found"
  const ValidExtensions: seq<string> := [".jpg", ".jpeg", ".png", ".webp"]
  const BackgroundPrefix := "bg"
  const Year := "2024"

  /** The canonical folder name: first character upper-cased, the rest lower-cased. */
  function Folder(category: string): (folder: string)
    ensures folder == Capitalize(category)
    ensures IsCapitalized(folder)
  {
    CapitalizeIdempotent(category);
    Capitalize(category)
  }

  /** A background file: its lower-cased name starts with `bg`, whatever its extension. */
  predicate IsBackground(name: string) {
    StartsWith(ToLower(name), BackgroundPrefix)
  }

  /** Its lower-cased `path.extname` is one of the allowed image extensions. */
  predicate HasImageExtension(name: string) {
    ToLower(ExtName(name)) in ValidExtensions
  }

  /** The filter predicate of the handler. */
  predicate IsGalleryFile(name: string) {
    HasImageExtension(name) && !IsBackground(name)
  }

  /** `xs` can be obtained from `ys` by deleting elements: same elements, same relative order. */
  ghost predicate IsSubsequence<T>(xs: seq<T>, ys: seq<T>)
    decreases |ys|
  {
    if xs == [] then true
    else if ys == [] then false
    else (xs[0] == ys[0] && IsSubsequence(xs[1..], ys[1..])) || IsSubsequence(xs, ys[1..])
  }

  /** The `filter` step: the gallery files of a listing, in listing order. */
  function GalleryFiles(names: seq<string>): (files: seq<string>)
    ensures forall f :: f in files <==> f in names && IsGalleryFile(f)
    ensures |files| <= |names|
  {
    if names == [] then []
    else if IsGalleryFile(names[0]) then [names[0]] + GalleryFiles(names[1..])
    else GalleryFiles(names[1..])
  }

  /** The kept files keep their relative order from the listing. */
  lemma {:induction false} GalleryFilesInOrder(names: seq<string>)
    ensures IsSubsequence(GalleryFiles(names), names)
  {
    if names != [] {
      GalleryFilesInOrder(names[1..]);
      var rest := GalleryFiles(names[1..]);
      if !IsGalleryFile(names[0]) {
        SubsequenceDropFirst(rest, names);
      }
    }
  }

  lemma SubsequenceDropFirst<T>(xs: seq<T>, ys: seq<T>)
    requires ys != [] && IsSubsequence(xs, ys[1..])
    ensures IsSubsequence(xs, ys)
  {
  }

  /** No file is lost or duplicated: each gallery file occurs as often as in the listing, and nothing else occurs. */
  lemma {:induction false} GalleryFilesCounts(names: seq<string>, f: string)
    ensures multiset(GalleryFiles(names))[f] == if IsGalleryFile(f) then multiset(names)[f] else 0
  {
    if names != [] {
      GalleryFilesCounts(names[1..], f);
      assert names == [names[0]] + names[1..];
    }
  }

  /** The `subcategory` label: `outdoor` for the Portraits folder, `street photography` for every other. */
  function Subcategory(folder: string): (sub: string)
    ensures sub == "outdoor" <==> folder == "Portraits"
    ensures sub == "street photography" <==> folder != "Portraits"
  {
    if folder == "Portraits" then "outdoor" else "street photography"
  }

  /** The descriptor of the file at 0-based position `index` of the kept files. */
  function Describe(folder: string, filename: string, index: nat): (image: Descriptor)
    ensures image.id == NatToString(index + 1) && DecimalValue(image.id) == index + 1
    ensures EndsWith(image.url, filename) && StartsWith(image.url, "/images/")
  {
    DecimalRoundTrip(index + 1);
    assert ("/images/" + folder + "/" + filename)[..|"/images/"|] == "/images/";
    Descriptor(
      id := NatToString(index + 1),
      url := "/images/" + folder + "/" + filename,
      category := ToLower(folder),
      subcategory := Subcategory(folder),
      title := folder,
      year := Year)
  }

  /** The `map` step: one descriptor per kept file, numbered from 1 in order. */
  function DescribeAll(folder: string, files: seq<string>): (images: seq<Descriptor>)
    ensures |images| == |files|
    ensures forall k :: 0 <= k < |files| ==> images[k] == Describe(folder, files[k], k)
  {
    seq(|files|, k requires 0 <= k < |files| => Describe(folder, files[k], k))
  }

  /**
   * The whole handler: 404 with the not-found message exactly when the folder is
   * absent, 500 exactly when it cannot be listed, and otherwise 200 with at most
   * one descriptor per directory entry.
   */
  function ListImages(category: string, fs: string -> Directory): (response: Response)
    ensures response.status == 404 <==> fs(Folder(category)).Absent?
    ensures response.status == 404 ==> response.body == ErrorMessage(NotFoundMessage)
    ensures response.status == 500 <==> fs(Folder(category)).Unreadable?
    ensures response.status == 200 <==> fs(Folder(category)).Entries?
    ensures response.status == 200 ==>
      response.body.Images? && |response.body.images| <= |fs(Folder(category)).names|
  {
    var folder := Folder(category);
    match fs(folder)
    case Absent => Response(404, ErrorMessage(NotFoundMessage))
    case Unreadable => Response(500, ServerFault)
    case Entries(names) => Response(200, Images(DescribeAll(folder, GalleryFiles(names))))
  }

  // ---------------------------------------------------------------------------
  // Properties

  /** Category names that differ only in ASCII case name the same folder and get the same response. */
  lemma CaseInsensitiveCategories(a: string, b: string, fs: string -> Directory)
    requires ToLower(a) == ToLower(b)
    ensures Folder(a) == Folder(b)
    ensures ListImages(a, fs) == ListImages(b, fs)
  {
    CapitalizeIgnoresCase(a, b);
  }

  /** Canonicalising an already canonical folder name changes nothing. */
  lemma FolderIdempotent(category: string)
    ensures Folder(Folder(category)) == Folder(category)
  {
    CapitalizeIdempotent(category);
  }

  /** An absent folder gives 404 with the not-found message, and no listing. */
  lemma MissingFolderIsNotFound(category: string, fs: string -> Directory)
    requires fs(Folder(category)) == Absent
    ensures ListImages(category, fs) == Response(404, ErrorMessage("Category not found"))
  {
  }

  /** A folder that cannot be listed gives a server fault, never the not-found answer. */
  lemma UnreadableFolderIsFault(category: string, fs: string -> Directory)
    requires fs(Folder(category)) == Unreadable
    ensures ListImages(category, fs).status == 500
    ensures ListImages(category, fs).body.ServerFault?
  {
  }

  /** A name passes the extension check exactly when, lower-cased, it ends with an allowed extension and has something before it. */
  lemma HasImageExtensionIff(name: string)
    ensures HasImageExtension(name) <==>
      exists e :: e in ValidExtensions && |e| < |name| && EndsWith(ToLower(name), e)
  {
    forall e | e in ValidExtensions ensures IsExtension(e) {
    }
    forall e | e in ValidExtensions
      ensures ToLower(ExtName(name)) == e <==> |e| < |name| && EndsWith(ToLower(name), e)
    {
      ExtNameMatches(name, e);
    }
  }

  /**
   * For an existing folder: status 200, exactly one descriptor per gallery file in
   * listing order, ids "1".."N", url `/images/<folder>/<file>`, lower-cased
   * category, folder as title, year 2024.
   */
  lemma ListingDescriptors(category: string, fs: string -> Directory)
    requires fs(Folder(category)).Entries?
    ensures var folder := Folder(category);
      var files := GalleryFiles(fs(folder).names);
      var response := ListImages(category, fs);
      response.status == 200 && response.body.Images? &&
      var images := response.body.images;
      |images| == |files| &&
      forall k :: 0 <= k < |images| ==>
        DecimalValue(images[k].id) == k + 1 &&
        images[k].url == "/images/" + folder + "/" + files[k] &&
        images[k].category == ToLower(folder) &&
        images[k].subcategory == Subcategory(folder) &&
        images[k].title == folder &&
        images[k].year == "2024"
  {
    var folder := Folder(category);
    var images := ListImages(category, fs).body.images;
    forall k | 0 <= k < |images| ensures DecimalValue(images[k].id) == k + 1 {
      DecimalRoundTrip(k + 1);
    }
  }

  /** No two descriptors of one listing share an id. */
  lemma ListingIdsDistinct(folder: string, files: seq<string>)
    ensures var images := DescribeAll(folder, files);
      forall j, k :: 0 <= j < k < |images| ==> images[j].id != images[k].id
  {
    var images := DescribeAll(folder, files);
    forall j, k | 0 <= j < k < |images| ensures images[j].id != images[k].id {
      NatToStringInjective(j + 1, k + 1);
    }
  }

  /** An existing folder without gallery files gives an empty listing, not an error. */
  lemma EmptyFolderIsEmptyListing(category: string, fs: string -> Directory)
    requires fs(Folder(category)).Entries?
    requires forall f :: f in fs(Folder(category)).names ==> !IsGalleryFile(f)
    ensures ListImages(category, fs) == Response(200, Images([]))
  {
    NoGalleryFiles(fs(Folder(category)).names);
  }

  lemma {:induction false} NoGalleryFiles(names: seq<string>)
    requires forall f :: f in names ==> !IsGalleryFile(f)
    ensures GalleryFiles(names) == []
  {
    if names != [] {
      assert names[0] in names;
      NoGalleryFiles(names[1..]);
    }
  }

  lemma ExampleBackground()
    ensures !IsGalleryFile("bg.jpg")
  {
    var lower := ToLower("bg.jpg");
    assert lower[0] == LowerChar('b') == 'b';
    assert lower[1] == LowerChar('g') == 'g';
    assert lower[..2] == "bg";
  }

  lemma ExampleImage(name: string)
    requires name == "p1.jpg" || name == "p2.PNG"
    ensures IsGalleryFile(name)
  {
    var ext := name[2..];
    ExtNameAt(name, 2);
    var lowerExt := ToLower(ext);
    assert lowerExt[0] == '.';
    assert lowerExt[1] == LowerChar(ext[1]);
    assert lowerExt[2] == LowerChar(ext[2]);
    assert lowerExt[3] == LowerChar(ext[3]);
    assert lowerExt == ".jpg" || lowerExt == ".png";
    assert ToLower(name)[0] == 'p';
  }

  lemma ExampleNotes()
    ensures !IsGalleryFile("notes.txt")
  {
    ExtNameAt("notes.txt", 5);
    var lowerExt := ToLower(".txt");
    assert lowerExt[1] == 't';
  }

  lemma ExampleFolder()
    ensures Folder("portraits") == "Portraits"
    ensures ToLower("Portraits") == "portraits"
  {
    var rest := "ortraits";
    ToLowerOfLower(rest);
    assert "portraits"[1..] == rest && "Portraits"[1..] == rest;
    assert Capitalize("portraits") == [UpperChar('p')] + rest;
    ToLowerSuffix("Portraits", 1);
    var l := ToLower("Portraits");
    assert l == [l[0]] + l[1..];
  }

  /** Filtering a listing in two parts and joining the results is filtering the whole listing. */
  lemma {:induction false} GalleryFilesAppend(xs: seq<string>, ys: seq<string>)
    ensures GalleryFiles(xs + ys) == GalleryFiles(xs) + GalleryFiles(ys)
  {
    if xs == [] {
      assert xs + ys == ys;
    } else {
      assert (xs + ys)[1..] == xs[1..] + ys;
      GalleryFilesAppend(xs[1..], ys);
    }
  }

  lemma GalleryFilesOfTwo(a: string, b: string)
    ensures GalleryFiles([a, b]) == (if IsGalleryFile(a) then [a] else []) + (if IsGalleryFile(b) then [b] else [])
  {
    assert [a, b][1..] == [b];
    assert [b][1..] == [];
    assert GalleryFiles([b]) == if IsGalleryFile(b) then [b] else [];
  }

  lemma ExampleFirstHalf()
    ensures GalleryFiles(["bg.jpg", "p1.jpg"]) == ["p1.jpg"]
  {
    ExampleBackground();
    ExampleImage("p1.jpg");
    GalleryFilesOfTwo("bg.jpg", "p1.jpg");
  }

  lemma ExampleSecondHalf()
    ensures GalleryFiles(["p2.PNG", "notes.txt"]) == ["p2.PNG"]
  {
    ExampleImage("p2.PNG");
    ExampleNotes();
    GalleryFilesOfTwo("p2.PNG", "notes.txt");
  }

  lemma ExampleFiles()
    ensures GalleryFiles(["bg.jpg", "p1.jpg", "p2.PNG", "notes.txt"]) == ["p1.jpg", "p2.PNG"]
  {
    ExampleFirstHalf();
    ExampleSecondHalf();
    GalleryFilesAppend(["bg.jpg", "p1.jpg"], ["p2.PNG", "notes.txt"]);
    assert ["bg.jpg", "p1.jpg"] + ["p2.PNG", "notes.txt"] == ["bg.jpg", "p1.jpg", "p2.PNG", "notes.txt"];
  }

  lemma ExampleDescriptor(filename: string, index: nat)
    requires index < 2
    ensures Describe("Portraits", filename, index) ==
      Descriptor(if index == 0 then "1" else "2", "/images/Portraits/" + filename, "portraits", "outdoor", "Portraits", "2024")
  {
    ExampleFolder();
    assert NatToString(1) == "1" && NatToString(2) == "2";
    assert "/images/" + "Portraits" + "/" + filename == "/images/Portraits/" + filename;
  }

  lemma ExampleDescriptors()
    ensures DescribeAll("Portraits", ["p1.jpg", "p2.PNG"]) == [
      Descriptor("1", "/images/Portraits/p1.jpg", "portraits", "outdoor", "Portraits", "2024"),
      Descriptor("2", "/images/Portraits/p2.PNG", "portraits", "outdoor", "Portraits", "2024")]
  {
    var files := ["p1.jpg", "p2.PNG"];
    var images := DescribeAll("Portraits", files);
    ExampleDescriptor(files[0], 0);
    ExampleDescriptor(files[1], 1);
    assert images[0] == Describe("Portraits", files[0], 0);
    assert images[1] == Describe("Portraits", files[1], 1);
    assert "/images/Portraits/" + files[0] == "/images/Portraits/p1.jpg";
    assert "/images/Portraits/" + files[1] == "/images/Portraits/p2.PNG";
  }

  /** A listing is the descriptors of the gallery files of the canonical folder. */
  lemma ListingOf(category: string, fs: string -> Directory)
    requires fs(Folder(category)).Entries?
    ensures var folder := Folder(category);
      ListImages(category, fs) == Response(200, Images(DescribeAll(folder, GalleryFiles(fs(folder).names))))
  {
  }

  /** The worked example: `portraits` with `bg.jpg`, `p1.jpg`, `p2.PNG` and `notes.txt`. */
  lemma PortraitsExample(fs: string -> Directory)
    requires fs("Portraits") == Entries(["bg.jpg", "p1.jpg", "p2.PNG", "notes.txt"])
    ensures ListImages("portraits", fs) == Response(200, Images([
      Descriptor("1", "/images/Portraits/p1.jpg", "portraits", "outdoor", "Portraits", "2024"),
      Descriptor("2", "/images/Portraits/p2.PNG", "portraits", "outdoor", "Portraits", "2024")]))
  {
    ExampleFolder();
    ExampleFiles();
    ExampleDescriptors();
    ListingOf("portraits", fs);
  }
}
