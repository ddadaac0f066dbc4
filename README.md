# BlogVerse front end, modelled in Dafny

BlogVerse generates blog posts with an AI service and keeps them in the
browser. This project models the two parts of the front end that hold its
logic.

- **The landing page** (`app/page.tsx`) loads the saved posts from
  `localStorage` and shows the newest six. It cleans markdown markers out of
  titles, excerpts and the read view. It splits a post into paragraphs and
  decides which paragraphs render as headings. It lets the user delete one
  post or all of them.
- **The generator** (`components/blog-generator.tsx`) sends a topic to the
  generation service. It picks and cleans the reply's title and content,
  shows the post and saves it in front of the stored posts. A failure is
  shown as an error post and is never saved. "Generate Another" clears the
  page, and "Delete from Saved" removes the shown post from storage.

Files:

- `wrappers.dfy`: `Option`.
- `js_strings.dfy`: the JavaScript string built-ins the code uses, as
  functions over Dafny characters (Unicode scalar values). These are global
  literal `replace` with `''`, `trim`, `split`, `substring(0, n)` and
  `endsWith`. `Join` is not called by the front end; it states what `Split`
  gives back.
- `posts.dfy`: the post record, the id filter, the six-post preview, and the
  `savedBlogs` storage entry as a class.
- `markdown.dfy`: the cleaning, paragraph, heading and excerpt rules, and
  the generator's field selection and normalisation.
- `markdown_examples.dfy`: concrete inputs that pin down what the cleaning
  does.
- `home_page.dfy`: the landing page's state and handlers.
- `blog_generator.dfy`: the generator's state and handlers.

React state becomes class fields. The `savedBlogs` storage entry is a field
holding `None` when the key is absent.

Some behaviour follows the code where a reader might expect otherwise:

- A new post keeps the topic exactly as typed. Only the blank check trims
  it.
- The fallback title is chosen before cleaning. So a title made only of
  markers, such as `"**"`, becomes `""`, not the fallback.
- Content cleaning is not idempotent (`NormalizeContentNotIdempotent`).
- The landing page's `###` pass can never match
  (`TripleHashPassIsDead`). Stray single `*` survive there
  (`CleanMarkersCanLeaveBold`).

## Model

| member | source | states |
|---|---|---|
| JsStrings.RemoveAll | app/page.tsx:38 | removing every non-overlapping occurrence of a literal, scanning left to right, never lengthens the text |
| JsStrings.RemoveAllKeeps | app/page.tsx:38 | removal only deletes characters; every character outside the literal keeps its count |
| JsStrings.RemoveAllAbsent | app/page.tsx:38 | removing a literal that does not occur leaves the text unchanged |
| JsStrings.RemoveAllCharGone | components/blog-generator.tsx:54 | after removing every `*`, none is left |
| JsStrings.RemoveAllPairGone | app/page.tsx:38 | after removing every `##` left to right, no `##` is left, even where a run of three `#` leaves one behind |
| JsStrings.LeadingWhiteSpace | app/page.tsx:260 | counts exactly the white-space prefix |
| JsStrings.TrailingWhiteSpace | app/page.tsx:260 | counts exactly the white-space suffix |
| JsStrings.Trim | components/blog-generator.tsx:55 | the result is the middle slice of the input between white-space runs; it has no white space at either end, and it is empty exactly when the input is all white space |
| JsStrings.TrimKeeps | components/blog-generator.tsx:55 | trimming drops only white space; every other character keeps its count |
| JsStrings.TrimOfTrimmed | components/blog-generator.tsx:55 | trimming a text with no white space at its ends changes nothing |
| JsStrings.TrimKeepsAbsence | components/blog-generator.tsx:46 | trimming cannot create an occurrence of a pattern |
| JsStrings.Split | app/page.tsx:39 | splitting yields at least one piece, and joining the pieces with the separator gives back the text |
| JsStrings.SplitPiecesFree | app/page.tsx:39 | no piece of a split holds the separator |
| JsStrings.OccursInJoin | app/page.tsx:39 | a pattern found in one piece is found in the joined text |
| JsStrings.SplitOnCharCount | app/page.tsx:261 | splitting on one character gives one more piece than there are occurrences of it |
| JsStrings.Prefix | app/page.tsx:169 | `substring(0, n)` is a prefix of the text of length min(n, length) |
| JsStrings.EndsWith | app/page.tsx:261 | `endsWith` holds only when the suffix fits, and for a one-character suffix exactly when the text ends with that character |
| Posts.RemoveId | app/page.tsx:199 | filtering by id never lengthens the list and keeps no post with that id |
| Posts.RemoveIdMembers | components/blog-generator.tsx:186 | a post survives the filter exactly when it was in the list and has another id |
| Posts.RemoveIdConcat | app/page.tsx:199 | filtering keeps order: filtering a concatenation filters each part |
| Posts.RemoveIdAbsent | components/blog-generator.tsx:186 | filtering by an id no post has changes nothing |
| Posts.RemoveIdUndoesPrepend | components/blog-generator.tsx:68 | deleting a post whose id was new, right after putting it in front, gives back the list as it was |
| Posts.Preview | app/page.tsx:34 | `slice(0, 6)` is a prefix of the stored list of length min(6, length) |
| Posts.SavedBlogsStore.Load | app/page.tsx:33 | reading storage gives the stored list, or no posts when the key is absent |
| Posts.SavedBlogsStore.Save | components/blog-generator.tsx:69 | after writing, the entry holds exactly the written list |
| Posts.SavedBlogsStore.Remove | app/page.tsx:123 | after removal the entry is absent and reads as the empty list |
| Markdown.CleanMarkers | app/page.tsx:38 | the landing-page cleaning only drops characters, only `*` and `#` ones, and leaves no `##` |
| Markdown.TripleHashPassIsDead | app/page.tsx:38 | the third, `###`, pass never changes anything |
| Markdown.TripleHashRunLeavesOne | app/page.tsx:38 | the `##` pass turns a run of three `#` into one `#` in front of the rest of the text |
| Markdown.KeepNonBlank | app/page.tsx:39 | the filter keeps at most the pieces it gets, and every kept piece has non-blank trimmed text |
| Markdown.KeepNonBlankMembers | app/page.tsx:39 | a piece is kept, untrimmed, exactly when its trimmed text is non-empty |
| Markdown.KeepNonBlankConcat | app/page.tsx:39 | the filter keeps the pieces' order |
| Markdown.FormatContent | app/page.tsx:37-41 | a piece of the cleaned text split at blank lines is a paragraph exactly when it is not blank; no paragraph holds a blank-line separator or `##` |
| Markdown.IsHeading | app/page.tsx:261 | a heading is never the first paragraph, its trimmed text is under 80 units, and it does not end with `.` |
| Markdown.HeadingRule | app/page.tsx:261 | a paragraph renders as a heading exactly when it is not the first, its trimmed text is under 80 units, has fewer than 9 spaces and does not end with `.`; the first paragraph never does |
| Markdown.ReadView | app/page.tsx:259-273 | one block per paragraph holding its non-empty trimmed text; a block is a heading exactly when the heading test holds at its index; the first block is body text |
| Markdown.Excerpt | app/page.tsx:169 | the card excerpt is the prefix of the cleaned content of length min(180, its length) |
| Markdown.FirstPresent | components/blog-generator.tsx:47 | an `||` chain gives the first truthy field, or the fallback when none is truthy |
| Markdown.NormalizeTitle | components/blog-generator.tsx:46 | a cleaned title holds no `##` and has no white space at either end |
| Markdown.NormalizeTitleKeeps | components/blog-generator.tsx:46 | the title cleaning only drops characters, and every character that is not `*`, `#` or white space keeps its count |
| Markdown.NormalizeTitleKeepsCleanTitle | components/blog-generator.tsx:46 | a title with no `**`, no `##` and no outer white space is kept as it is |
| Markdown.ResolveTitle | components/blog-generator.tsx:46 | the title is the cleaned reply title when that is truthy, else the cleaned fallback built from the topic |
| Markdown.NormalizeContent | components/blog-generator.tsx:50-55 | content cleaning only drops characters, keeps the count of every one that is not `*`, `#` or white space, leaves no `*` and no white space at either end |
| Markdown.ContentPassesKeep | components/blog-generator.tsx:50-55 | the four removal passes and the trim only drop characters, and only `*`, `#` and white space |
| Markdown.NormalizeContentKeepsPlainText | components/blog-generator.tsx:50-55 | text with no `*`, no `#` and no outer white space is kept as it is |
| Markdown.PickContent | components/blog-generator.tsx:47 | raw content is `blog`, else `response`, else `content`, else the no-content text, and is never empty |
| MarkdownExamples.TripleHashLeavesOne | app/page.tsx:38 | `###` cleans to `#` |
| MarkdownExamples.CleanMarkersCanLeaveBold | app/page.tsx:38 | `*##*` cleans to `**`: the cleaning can create a bold marker |
| MarkdownExamples.NormalizeContentNotIdempotent | components/blog-generator.tsx:50-55 | `#*#` cleans to `##`, which cleans again to the empty text |
| MarkdownExamples.PlainParagraphsUnchanged | components/blog-generator.tsx:50-55 | `"Intro paragraph.\n\nSecond paragraph."` comes through the content cleaning unchanged |
| HomePage.Home.constructor | app/page.tsx:28 | the page starts with an empty list |
| HomePage.Home.LoadSaved | app/page.tsx:32-35 | the list becomes the first six stored posts; storage is only read |
| HomePage.Home.DeleteAll | app/page.tsx:121-126 | confirmed: the storage entry is removed and the list emptied; declined: nothing changes |
| HomePage.Home.DeleteOne | app/page.tsx:197-202 | confirmed: the shown list loses that id and that list is what storage then holds; declined: nothing changes |
| HomePage.Home.DeleteOneSynced | app/page.tsx:197-202 | confirmed: storage loses exactly that id and the list is the first six of the rest; declined: nothing changes |
| HomePage.DeleteFromPreviewDropsOlderPosts | app/page.tsx:199-201 | with a seventh stored post of another id, deleting from the preview stores fewer posts than deleting from storage leaves |
| HomePage.SyncedDeleteKeepsOthers | app/page.tsx:199 | every stored post with another id survives a delete |
| Generator.Raised | components/blog-generator.tsx:39-43 | a rejected request throws its value; a parsed reply throws an `Error` with its `error` text exactly when that field is truthy |
| Generator.ErrorPost | components/blog-generator.tsx:75-81 | the error post has the fixed title, the raw topic and the clock's id and time, and its content is the `Error`'s message, else the generic try-again text |
| Generator.ErrorMessage | components/blog-generator.tsx:72 | the error text is the `Error`'s message, else the non-empty generic line |
| Generator.NewPost | components/blog-generator.tsx:57-63 | the new post has the clock's id and time, the raw topic, the resolved title without `##`, and the cleaned picked content without `*` |
| Generator.BlogGenerator.constructor | components/blog-generator.tsx:20-23 | empty topic, not loading, no post, no error |
| Generator.BlogGenerator.SetTopic | components/blog-generator.tsx:109 | the topic becomes the typed value |
| Generator.BlogGenerator.CanDeleteFromSaved | components/blog-generator.tsx:151-175 | "Delete from Saved" shows exactly when a post is shown, nothing is loading and the error is absent or empty |
| Generator.BlogGenerator.Submit | components/blog-generator.tsx:26-29 | a request starts exactly when the trimmed topic is non-empty, with loading on and the error cleared; otherwise nothing changes |
| Generator.BlogGenerator.Publish | components/blog-generator.tsx:64-69 | the post is shown, and storage holds it in front of what was stored |
| Generator.BlogGenerator.Settle | components/blog-generator.tsx:30-85 | with nothing thrown, the new post is shown and saved in front; with something thrown, its text is the error, the error post is shown and storage is unchanged; loading ends either way |
| Generator.BlogGenerator.HandleGenerate | components/blog-generator.tsx:25-86 | a blank topic changes nothing; otherwise the outcome of `Settle` with the error cleared on success, and "Delete from Saved" offered after a success and after a failure only if its text is empty |
| Generator.BlogGenerator.Clear | components/blog-generator.tsx:88-92 | topic, shown post and error are cleared |
| Generator.BlogGenerator.DeleteFromSaved | components/blog-generator.tsx:184-189 | storage, read again, loses every post with the shown post's id, and the shown post is cleared |
| Generator.SaveThenDeleteRestores | components/blog-generator.tsx:184-187 | deleting a just-generated post with a new id restores storage to what it was before generation |

## Left out

- Network and the generation service: the reply the request would get is a parameter of `HandleGenerate` and `Settle`. The API route and the Python backend are not part of this model.
- Clock: `Date.now()` and `new Date().toISOString()` are a `Stamp` parameter. Post ids are therefore not guaranteed unique; `SaveThenDeleteRestores` assumes the new id is.
- JSON: storage is modelled as the parsed list or an absent key. A malformed entry makes `JSON.parse` throw; on the landing page the effect then fails, and in the generator the error path runs after the new post was already set. In "Delete from Saved" (components/blog-generator.tsx:185) the throw is uncaught and the handler stops before writing or clearing the post. None of these is modelled.
- Generator.BlogGenerator.Settle: storage calls are modelled as never throwing. In a browser, `localStorage.setItem` (components/blog-generator.tsx:69) can throw when storage is full or blocked. The catch block then runs after the new post was shown, so the error text and the error post replace it and nothing is saved. `Settle` and `HandleGenerate` instead promise the save for every reply that raises nothing.
- Reply fields of other types than string (numbers, objects) and their JavaScript truthiness and string conversion are not modelled; a field is a string or missing.
- Logging: the `console.error` call on the failure path (components/blog-generator.tsx:71) is left out.
- `confirm` and `alert` dialogs: the user's answer is a `confirmed` parameter; alerts are left out.
- Clipboard copying, animations, dialogs opening and closing, and rendering are left out. The text copied from a card is `CleanMarkers` of the content.
- Two requests in flight at once (the inputs are disabled while loading) and other tabs writing storage concurrently are left out.
- UTF-16: a Dafny `char` is a Unicode scalar value, while JavaScript lengths and indices count UTF-16 code units. A character outside the Basic Multilingual Plane is one `char` here and two units there. So for such text the model's `length < 80` heading test (app/page.tsx:261) and its 180-unit excerpt (app/page.tsx:169) can differ from the browser's, and JavaScript's `substring` can split a surrogate pair, which the model cannot.
- The page layout markup, the hero section (`components/hero.tsx`) and the about page are not part of this model.

## Findings

| source | as written | input that shows it | evidently intended | confidence | as-written member | corrected member |
|---|---|---|---|---|---|---|
| app/page.tsx:199-201 | a card's delete filters the six shown posts and writes that list to storage | seven stored posts with distinct ids; delete the first: storage keeps five posts, and the seventh is lost | remove the post from the stored list and show the first six of the rest | not executed | HomePage.DeleteFromPreviewDropsOlderPosts | HomePage.Home.DeleteOneSynced |
