# Photography portfolio: image listing, page titles, gallery and contact form

This project models the parts of the portfolio site that hold the logic:

- **Image server** (`server.cjs`). This is the `/api/images/:category` handler.
  - It turns the requested category into a canonical folder name: first character upper-cased, the rest lower-cased.
  - An absent folder gets 404 with `{ error: "Category not found" }`.
  - Otherwise it keeps the directory entries whose lower-cased extension is `.jpg`, `.jpeg`, `.png` or `.webp` and whose lower-cased name does not start with `bg`.
  - Each kept file becomes a descriptor `{ id, url, category, subcategory, title, year }`, with ids numbered from 1 in listing order.
  - Module `ImageService`, file `image_service.dfy`.
- **Page title** (`src/App.tsx`). `getTitle` derives the document title from the path. Module `PageTitle`, file `page_title.dfy`.
- **Category page** (`src/pages/PortfolioCategory.tsx`).
  - The category the page asks the server for.
  - The gallery/carousel state: view mode, selected image and selected index. The arrow buttons, the keyboard, the image cards, the view toggle and the close button change it.
  - Every event is a transition function on `PageState`. The class `CategoryPage` holds the component's state fields, and each of its handlers is proved to perform exactly that transition.
  - Module `PortfolioCategory`, file `portfolio_category.dfy`.
- **Contact form** (`src/pages/Contact.tsx`).
  - Field validation: required fields, checked with `trim()`, and the e-mail regular expression `^[^\s@]+@[^\s@]+\.[^\s@]+$`.
  - The submission's state transitions around the e-mail relay.
  - The field-change handler.
  - The component's state is the class `ContactForm`. Module `Contact`, file `contact.dfy`.
- **JavaScript and Node built-ins** (module `JsText`, file `js_text.dfy`). These are the string built-ins the code relies on:
  - `toUpperCase` and `toLowerCase`, on ASCII letters only;
  - `charAt(0)` and `slice(1)`;
  - `startsWith`;
  - `trim` and the `\s` class, both over the full ECMAScript whitespace and line-terminator set;
  - `split("/").pop()`;
  - Node's `path.extname` on a directory-entry name;
  - `String(n)` for a natural number.

The filesystem is an input to the server model: `fs` maps a canonical folder name to `Absent`, `Unreadable` or `Entries(names)`, where the names are in listing order. The result of the e-mail relay is a boolean parameter `delivered`. The result of the client's fetch is an `Option` of the received list, where `None` means the request failed.

The validation function `Contact.Validate` tests "blank" (all whitespace), not `trim() == ""`. `JsText.TrimEmptyIffBlank` proves that the two are the same test. `Contact.ContactForm.ValidateForm` tests `Trim(...) == []` exactly as the component does, and is proved to record `Validate`'s errors.

## Model

| member | source | states |
|---|---|---|
| JsText.UpperChar | server.cjs:19 | `toUpperCase` on one character: a lower-case ASCII letter becomes the same letter in upper case; every other character is unchanged, and the result is never a lower-case ASCII letter |
| JsText.LowerChar | server.cjs:19 | `toLowerCase` on one character: an upper-case ASCII letter becomes the same letter in lower case; every other character is unchanged, and the result is never an upper-case ASCII letter |
| JsText.SameLowerSameUpper | server.cjs:19 | two characters with the same lower-case form have the same upper-case form |
| JsText.ToLower | server.cjs:29 | `toLowerCase`: same length, and every character is lower-cased in place |
| JsText.ToLowerOfLower | server.cjs:42 | a string with no upper-case ASCII letter is its own lower-case form |
| JsText.Capitalize | server.cjs:19 | `charAt(0).toUpperCase() + slice(1).toLowerCase()`: same length, first character upper-cased, every later one lower-cased |
| JsText.CapitalizeFixedPoints | server.cjs:19 | capitalising leaves a string unchanged exactly when it is already capitalised |
| JsText.CapitalizeIdempotent | server.cjs:19 | every capitalised result is capitalised, so capitalising twice equals capitalising once |
| JsText.CapitalizeIgnoresCase | server.cjs:19 | strings that differ only in ASCII case capitalise to the same string |
| JsText.UpperFirst | src/App.tsx:20 | `charAt(0).toUpperCase() + slice(1)`: same length, first character upper-cased, the rest unchanged |
| JsText.SliceFromOne | src/App.tsx:22 | `slice(1)`: the first character followed by the result is the input; the empty string gives the empty string |
| JsText.StartsWith | server.cjs:33 | `startsWith`: the prefix is no longer than the string and equals its first characters |
| JsText.IsWhitespace | src/pages/Contact.tsx:22 | the ECMAScript whitespace and line-terminator characters, which `\s` matches and `trim()` removes |
| JsText.TrimStart | src/pages/Contact.tsx:16 | what is removed is a whitespace prefix, and the result does not start with whitespace |
| JsText.TrimEnd | src/pages/Contact.tsx:16 | what is removed is a whitespace suffix, and the result does not end with whitespace |
| JsText.Trim | src/pages/Contact.tsx:16 | `trim()`: the result is a slice `s[i..j]` with only whitespace before `i` and after `j`, and it neither starts nor ends with whitespace |
| JsText.TrimEmptyIffBlank | src/pages/Contact.tsx:16-28 | `trim()` is empty exactly when the string is all whitespace |
| JsText.LastIndexOf | src/App.tsx:19 | `lastIndexOf`: -1 or a position holding the character, with no later occurrence |
| JsText.LastSegment | src/App.tsx:19 | `split("/").pop()`: a suffix with no `/`, preceded by `/` when shorter than the input, and the whole input when it has no `/` |
| JsText.ExtName | server.cjs:29 | `path.extname`: empty, or a proper suffix of the name that starts with its only `.`; empty for a name without `.` |
| JsText.ExtNameAt | server.cjs:29 | a `.` after the first character, followed by at least one character and no other `.`, starts the extension |
| JsText.ToLowerSuffix | server.cjs:29 | lower-casing commutes with taking a suffix |
| JsText.ExtNameMatchesIf | server.cjs:29-30 | a name whose lower-cased form ends with an allowed extension, with something before it, has that lower-cased extension |
| JsText.ExtNameMatchesOnlyIf | server.cjs:29-30 | a name with that lower-cased extension ends with it when lower-cased, with something before it |
| JsText.ExtNameMatches | server.cjs:29-30 | both directions together: the lower-cased extension equals an allow-list entry exactly when the lower-cased name ends with it and is longer |
| JsText.DigitChar | server.cjs:40 | a digit below 10 becomes the decimal digit character with that value |
| JsText.NatToString | server.cjs:40 | `String(n)`: a non-empty string of decimal digits without a leading zero |
| JsText.DecimalRoundTrip | server.cjs:40 | reading back the numeral `String(n)` gives `n` |
| JsText.NatToStringInjective | server.cjs:40 | different numbers have different numerals |
| ImageService.Folder | server.cjs:19 | the folder is the capitalised category, and it is already in capitalised form |
| ImageService.FolderIdempotent | server.cjs:19 | canonicalising a canonical folder name changes nothing |
| ImageService.CaseInsensitiveCategories | server.cjs:19-25 | categories that differ only in ASCII case name the same folder and get the same response |
| ImageService.MissingFolderIsNotFound | server.cjs:23-25 | an absent folder gives status 404 with `Category not found` and no listing |
| ImageService.UnreadableFolderIsFault | server.cjs:28 | a folder whose listing fails gives a server fault with status 500, not the not-found answer |
| ImageService.HasImageExtensionIff | server.cjs:29-30 | an entry passes the extension check exactly when its lower-cased name ends with an allowed extension and has something before it |
| ImageService.IsBackground | server.cjs:33 | the lower-cased name starts with `bg`, whatever the extension |
| ImageService.HasImageExtension | server.cjs:29-30 | the lower-cased `path.extname` is one of `.jpg`, `.jpeg`, `.png`, `.webp` |
| ImageService.IsGalleryFile | server.cjs:35 | the filter keeps a name with an allowed extension that is not a background file |
| ImageService.GalleryFiles | server.cjs:28-36 | the filter: a name is kept exactly when it is in the listing, has an allowed lower-cased extension and does not start with `bg` when lower-cased; there are never more kept files than entries |
| ImageService.GalleryFilesInOrder | server.cjs:28-36 | the kept files are a subsequence of the listing, in the same relative order |
| ImageService.SubsequenceDropFirst | server.cjs:28-36 | a subsequence of the tail of a listing is a subsequence of the listing |
| ImageService.GalleryFilesCounts | server.cjs:28-36 | each kept name occurs as often as in the listing, and no other name occurs |
| ImageService.GalleryFilesAppend | server.cjs:28-36 | filtering two parts of a listing and joining them equals filtering the whole listing |
| ImageService.GalleryFilesOfTwo | server.cjs:28-36 | filtering a two-entry listing keeps each entry that passes, in order |
| ImageService.NoGalleryFiles | server.cjs:28-36 | a listing with no qualifying entry filters to nothing |
| ImageService.Subcategory | server.cjs:43 | `outdoor` exactly when the folder is `Portraits`, and `street photography` exactly otherwise |
| ImageService.Describe | server.cjs:39-46 | the id is `String(index + 1)`, whose decimal value is index + 1; the url starts with `/images/` and ends with the file name |
| ImageService.DescribeAll | server.cjs:39-46 | one descriptor per kept file, in order, the k-th describing the k-th file at position k |
| ImageService.ListImages | server.cjs:15-49 | the whole handler: 404 with `Category not found` exactly when the folder is absent, 500 exactly when it cannot be listed, 200 exactly when it has entries, and then no more descriptors than entries |
| ImageService.ListingDescriptors | server.cjs:39-48 | an existing folder gives status 200 and one descriptor per kept file with id `k+1` in decimal, url `/images/<folder>/<file>`, lower-cased folder as category, the folder's subcategory, the folder as title and year `2024` |
| ImageService.ListingIdsDistinct | server.cjs:39-40 | no two descriptors of a listing share an id |
| ImageService.EmptyFolderIsEmptyListing | server.cjs:28-48 | an existing folder with no qualifying entries gives status 200 with an empty list, not an error |
| ImageService.ListingOf | server.cjs:19-48 | for any category whose canonical folder exists, the response is status 200 with the descriptors of that folder's kept entries |
| ImageService.ExampleBackground | server.cjs:33-35 | `bg.jpg` is dropped although its extension is allowed |
| ImageService.ExampleImage | server.cjs:29-35 | `p1.jpg` and `p2.PNG` are kept; the extension test is case-insensitive |
| ImageService.ExampleNotes | server.cjs:29-35 | `notes.txt` is dropped because its extension is not allowed |
| ImageService.ExampleFolder | server.cjs:19 | `portraits` names the folder `Portraits`, whose category label is `portraits` |
| ImageService.ExampleFirstHalf | server.cjs:28-36 | of `bg.jpg` and `p1.jpg`, only `p1.jpg` is kept |
| ImageService.ExampleSecondHalf | server.cjs:28-36 | of `p2.PNG` and `notes.txt`, only `p2.PNG` is kept |
| ImageService.ExampleFiles | server.cjs:28-36 | of `bg.jpg`, `p1.jpg`, `p2.PNG` and `notes.txt`, exactly `p1.jpg` and `p2.PNG` are kept, in that order |
| ImageService.ExampleDescriptor | server.cjs:39-46 | a file of `Portraits` at position 0 or 1 gets id `1` or `2`, category `portraits`, subcategory `outdoor`, title `Portraits` and year `2024` |
| ImageService.ExampleDescriptors | server.cjs:39-46 | the two kept Portraits files get ids `1` and `2` and their urls under `/images/Portraits/` |
| ImageService.PortraitsExample | server.cjs:15-48 | a request for `portraits` over that folder returns exactly the two descriptors of `p1.jpg` and `p2.PNG` |
| PageTitle.GetTitle | src/App.tsx:13-24 | every title ends with the base title |
| PageTitle.BaseTitleOnlyAtRoot | src/App.tsx:15-17 | the title is exactly the base title if and only if the path is `/` |
| PageTitle.LastSegmentAfterSlash | src/App.tsx:19 | the last segment of `<prefix>/<segment>` is that segment |
| PageTitle.WorkCategoryTitle | src/App.tsx:18-21 | `/work/<segment>` gives the segment, with only its first character upper-cased, then ` Photography - ` and the base title |
| PageTitle.NestedWorkPathTitle | src/App.tsx:18-21 | a deeper path under `/work/` is titled by its last segment only |
| PageTitle.WorkRootTitle | src/App.tsx:18-21 | `/work/` itself has an empty segment, so its title starts with ` Photography` |
| PageTitle.OtherPageTitle | src/App.tsx:22-23 | any other path `/<page>` gives the page with only its first character upper-cased, then ` - ` and the base title |
| PageTitle.WorkIndexTitle | src/App.tsx:22-23 | `/work` gives `Work - ` and the base title |
| PortfolioCategory.RequestedCategory | src/pages/PortfolioCategory.tsx:25-27 | never empty, already capitalised, and for a non-empty parameter of the same length and the same letters up to case; exactly `Portraits` when the parameter is missing or empty |
| PortfolioCategory.RequestedCategoryIsServerFolder | src/pages/PortfolioCategory.tsx:25-28 | the server's canonicalisation of the requested category returns it unchanged |
| PortfolioCategory.RequestedCategoryIgnoresCase | src/pages/PortfolioCategory.tsx:25-27 | route parameters that differ only in ASCII case request the same category |
| PortfolioCategory.FindIndex | src/pages/PortfolioCategory.tsx:42 | `findIndex` by id: -1 or a position with that id, with no earlier match (no match at all for -1); an undefined id matches nothing |
| PortfolioCategory.SelectedId | src/pages/PortfolioCategory.tsx:42 | `selectedImage?.id`: the selected image's id, or undefined (`None`) when nothing is selected |
| PortfolioCategory.Navigate | src/pages/PortfolioCategory.tsx:41-52 | the view mode and list are kept, and the state is unchanged or the selection is the image at a valid selected index |
| PortfolioCategory.NavigateSteps | src/pages/PortfolioCategory.tsx:42-51 | `Prev` moves to index-1, selecting the image there, only when the found index is above 0; `Next` moves to index+1, selecting the image there, only when it is below length-1; otherwise nothing changes |
| PortfolioCategory.NavigateFromUnlistedImage | src/pages/PortfolioCategory.tsx:42-47 | with a selection not in the list, `Prev` does nothing and `Next` jumps to the first image of a non-empty list |
| PortfolioCategory.FindSelected | src/pages/PortfolioCategory.tsx:42 | with unique ids, the index found for a valid selection is the selected index |
| PortfolioCategory.ButtonsMatchNavigation | src/pages/PortfolioCategory.tsx:168-184 | on a valid selection with unique ids, each arrow button is disabled exactly when pressing it would change nothing |
| PortfolioCategory.CloseCarousel | src/pages/PortfolioCategory.tsx:187-190 | no selection and gallery mode; list and index kept |
| PortfolioCategory.KeyDown | src/pages/PortfolioCategory.tsx:55-68 | the list is kept, and without a selection the state is unchanged |
| PortfolioCategory.KeyDownBehaviour | src/pages/PortfolioCategory.tsx:55-68 | key presses do nothing without a selection; with one, ArrowLeft navigates back, ArrowRight navigates forward, and Escape clears the selection and returns to the gallery; any other key does nothing |
| PortfolioCategory.ClickCard | src/pages/PortfolioCategory.tsx:93-97 | carousel mode with the clicked card's image and index selected |
| PortfolioCategory.ToggleView | src/pages/PortfolioCategory.tsx:116-124 | the view mode flips and the list is kept |
| PortfolioCategory.ToggleBehaviour | src/pages/PortfolioCategory.tsx:116-124 | from the gallery: the first image, index 0 and carousel mode, with the gallery still shown on an empty list; from the carousel: the gallery with no selection and the index kept |
| PortfolioCategory.LoadImages | src/pages/PortfolioCategory.tsx:31 | a fetched list replaces the images and leaves the mode and the selection as they were |
| PortfolioCategory.CarouselShowsSelection | src/pages/PortfolioCategory.tsx:139 | the carousel shows only in carousel mode with a selection, and then the counter `selectedIndex + 1` is within the list |
| PortfolioCategory.ShowsCarousel | src/pages/PortfolioCategory.tsx:139 | the carousel is rendered unless the view is the gallery or nothing is selected |
| PortfolioCategory.PrevDisabled | src/pages/PortfolioCategory.tsx:171 | the previous button is disabled at index 0 |
| PortfolioCategory.NextDisabled | src/pages/PortfolioCategory.tsx:180 | the next button is disabled at the last index |
| PortfolioCategory.EventsKeepSelectionValid | src/pages/PortfolioCategory.tsx:41-124 | navigation, key presses, card clicks, the toggle and closing each keep the selection equal to the image at a valid selected index |
| PortfolioCategory.InitialSelectionValid | src/pages/PortfolioCategory.tsx:18-21 | the initial state has no selection and shows the gallery |
| PortfolioCategory.ReloadCanInvalidateSelection | src/pages/PortfolioCategory.tsx:31 | replacing the list keeps a selection that may no longer be in it |
| PortfolioCategory.ServerListingHasUniqueIds | src/pages/PortfolioCategory.tsx:42 | a list from the server has unique ids, so finding by id finds the selected index |
| PortfolioCategory.CategoryPage.constructor | src/pages/PortfolioCategory.tsx:18-21 | gallery mode, no selection, index 0, empty list |
| PortfolioCategory.CategoryPage.FetchImages | src/pages/PortfolioCategory.tsx:23-35 | requests the requested category; a successful fetch replaces the list and a failed one changes nothing |
| PortfolioCategory.CategoryPage.NavigateImage | src/pages/PortfolioCategory.tsx:41-52 | the new state is the navigation transition of the old |
| PortfolioCategory.CategoryPage.HandleKeyPress | src/pages/PortfolioCategory.tsx:55-68 | the new state is the keydown transition of the old |
| PortfolioCategory.CategoryPage.ClickImageCard | src/pages/PortfolioCategory.tsx:93-97 | the new state is the card-click transition of the old |
| PortfolioCategory.CategoryPage.ToggleViewMode | src/pages/PortfolioCategory.tsx:116-124 | the new state is the toggle transition of the old |
| PortfolioCategory.CategoryPage.Close | src/pages/PortfolioCategory.tsx:187-190 | the new state is the close transition of the old |
| Contact.ValidEmailMatches | src/pages/Contact.tsx:22 | an address passing the direct test matches the regular expression |
| Contact.MatchesIsValidEmail | src/pages/Contact.tsx:22 | an address matching the regular expression passes the direct test |
| Contact.EmailPatternIff | src/pages/Contact.tsx:22 | the direct test (no whitespace, one `@` with text before it, a domain with an inner `.`) accepts exactly what the regular expression matches |
| Contact.MatchesEmailPattern | src/pages/Contact.tsx:22 | the regular expression as a split: an `@` and a later `.`, non-empty runs around them, and every other character outside `[\s@]` |
| Contact.IsAddressChar | src/pages/Contact.tsx:22 | the class `[^\s@]`: neither whitespace nor `@` |
| Contact.IsValidEmail | src/pages/Contact.tsx:22 | the direct test: no whitespace, the last `@` at a position above 0 with no other `@` before it, and a domain with a `.` that is neither its first nor its last character |
| Contact.BlankIsNotValidEmail | src/pages/Contact.tsx:20-24 | a blank address never passes the e-mail test |
| Contact.Validate | src/pages/Contact.tsx:14-28 | the errors of `validateForm`; the e-mail has an error exactly when it fails the e-mail test, because a blank address fails it too |
| Contact.HasNoErrors | src/pages/Contact.tsx:31 | `Object.keys(newErrors).length === 0`: none of the three fields has an error |
| Contact.ValidateErrors | src/pages/Contact.tsx:13-28 | name and message errors are set exactly when the trimmed value is empty; the e-mail gets the required error exactly when it trims to nothing, and otherwise the invalid error exactly when the untrimmed value fails the test |
| Contact.EmailErrorAgainstPattern | src/pages/Contact.tsx:20-24 | the e-mail error, stated against the regular expression itself |
| Contact.ValidIff | src/pages/Contact.tsx:13-31 | a form has no errors exactly when the name and message are not blank and the e-mail matches the regular expression |
| Contact.SurroundingSpaceIsInvalid | src/pages/Contact.tsx:20-24 | a non-blank e-mail with leading or trailing whitespace gets the invalid-address error: the pattern applies to the untrimmed value |
| Contact.With | src/pages/Contact.tsx:71 | the named field takes the value and the other fields are unchanged |
| Contact.Cleared | src/pages/Contact.tsx:74 | the named error is cleared and the other errors are unchanged |
| Contact.ErrorOf | src/pages/Contact.tsx:73 | `errors[name]`: the error recorded for the named field, if any |
| Contact.ContactForm.constructor | src/pages/Contact.tsx:7-10 | empty fields, no errors, not submitting, status idle |
| Contact.ContactForm.ValidateForm | src/pages/Contact.tsx:13-32 | records the errors of the current values and returns true exactly when there are none |
| Contact.ContactForm.BeginSubmit | src/pages/Contact.tsx:35-43 | an invalid form sends nothing and leaves the submitting flag and status as they were; a valid one sends its values, is submitting and has status idle |
| Contact.ContactForm.FinishSubmit | src/pages/Contact.tsx:45-65 | on delivery the status is success and the fields are empty; on failure the status is error and the fields are kept; submitting is over in both cases |
| Contact.ContactForm.HandleSubmit | src/pages/Contact.tsx:35-66 | the whole submission: errors recorded; something is sent exactly when there are none; an invalid form changes nothing else; a sent form ends with success and empty fields, or error and the fields kept |
| Contact.ContactForm.HandleChange | src/pages/Contact.tsx:69-76 | only the named field changes; its error is cleared if it had one, and no other error changes |

## Left out

- Express, CORS, static file serving and `app.listen` (server.cjs:1-12, 51-53) are HTTP plumbing. The handler is a function from the category and the filesystem to a status and a body.
- `fs.existsSync` and `fs.readdirSync` are inputs. `path.join` (server.cjs:20), with its dependence on `__dirname` and its normalisation of `.` and `..`, happens inside the lookup `fs(folder)`, so a category such as `../x` reaches the lookup unchanged.
- A listing that fails (`Unreadable`) is answered with status 500 and no body detail. That is what Express's default handler does with the exception thrown by `readdirSync`. The error page itself is not modelled.
- ExtName: models Node's `path.extname` only for names without `/`. A directory entry's name never contains one.
- UpperChar: ASCII letters only. JavaScript's `toUpperCase` also maps other Unicode letters, and `ß` becomes two characters.
- LowerChar: ASCII letters only, for the same reason.
- NatToString: models `String(n)` as the plain decimal numeral. JavaScript switches to exponent notation from 10^21, far beyond any directory size.
- `fetch`, JSON decoding and the React hooks (`useEffect`, `useCallback`, `useInView`) are left out. Each state update is applied directly.
  - If the server answers 404, the client stores the error object `{ error }` as its image list. That is a list of the wrong type, which `Image[]` cannot express, so it is not modelled. `FetchImages` takes the received list as an `Option`.
- The page state is updated synchronously. React batches updates and re-creates the handlers (`navigateImage`, the keydown listener) on each render; the model assumes every handler sees the current state.
- `convertToWBMP.cjs` and the other pages and components (Home, About, Work, Navigation, Footer, Layout), plus `vite.config.ts`, are markup, animation, configuration or an offline conversion script.
- The EmailJS call (src/pages/Contact.tsx:47-56) is an external service. Its outcome is the parameter `delivered`. Its service id, template id and key are not modelled.
  - The `await` between starting and finishing a submission is modelled by splitting it into `BeginSubmit` and `FinishSubmit`. Events that arrive while the send is pending are not modelled.
- Logging is not modelled: the `console.log` and `console.error` calls (src/pages/PortfolioCategory.tsx:30 and :33, src/pages/Contact.tsx:61) have no effect on state.
- `e.preventDefault()` and the rendering of errors and status messages are left out.
