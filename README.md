# MP3 downloader and transcriber: a Dafny model of `app.py`

The application is a small Flask service. It takes a page URL and a folder
name, collects every `<a>` element whose `href` ends in ".mp3", and gives
each link a display name. The display name comes from the anchor's `title`,
stripped, with a trailing ".mp3" removed, or is "mp3" when there is no
title. For each link the service then downloads the audio, transcribes it
and writes the transcript as a PDF. The audio file and the PDF are named
after the display name with the path characters `/`, `\` and `:` replaced
by `_`.

This project models the deterministic core of `app.py` in Dafny:

- `wrappers.dfy`: `Option`, which stands for an HTML attribute that may be
  absent.
- `py_str.dfy`: the parts of Python's `str` and `os.path` the core uses.
  - `str.strip()`, with CPython's whitespace set.
  - `str.endswith`.
  - `str.replace` with one character.
  - `os.path.join` of two parts, as on POSIX.
- `naming.dfy`: the display name of an anchor, the sanitisation of a
  display name, and the two file names built from it.
- `scraper.dfy`: the link-filter loop of `scrape_mp3_links`. It is an
  imperative method over the page's anchors, proved against a
  prefix-recursive specification function, with properties proved about
  that function.
- `app_routes.dfy`: the per-link loop of `process_mp3s`, reduced to the
  paths it writes, and the POST branch of the `index` route. That branch
  answers "No MP3 links found." when nothing qualifies, and otherwise
  builds the folder path and, when every step succeeds, processes every
  link in order.

## Model

| member | source | states |
|---|---|---|
| PyStr.Strip | app.py:19 | `.strip()` gives a text that neither starts nor ends with whitespace, and it is empty exactly when the input is all whitespace |
| PyStr.StripSplits | app.py:19 | the stripped text is a contiguous piece of the input, and everything outside that piece is whitespace |
| PyStr.StripUnique | app.py:19 | whitespace around a trimmed text strips back to exactly that text |
| PyStr.StripIdempotent | app.py:19 | stripping twice is stripping once |
| PyStr.ReplaceChar | app.py:28 | `replace` of one character keeps the length, puts the replacement at every position of the pattern and leaves every other character alone |
| PyStr.EndsWith | app.py:17-20 | no contract; defined as: the suffix fits and the last characters are the suffix |
| PyStr.PathJoin | app.py:34 | used at lines 34, 50 and 76; no contract; defined as `posixpath.join` of two parts: an absolute second part wins, otherwise a '/' is added unless the first part is empty or ends in one; its properties are in PathJoinRelative and PathJoinAbsolute |
| PyStr.PathJoinRelative | app.py:34 | joining a relative name keeps the whole folder, adds at most one separator and puts the name right after it |
| PyStr.PathJoinAbsolute | app.py:76 | joining an absolute second part discards the first |
| Naming.Label | app.py:19 | the stripped title, or "mp3" when that is empty, is never empty and never has outer whitespace |
| Naming.DisplayName | app.py:19-21 | when the label ends in ".mp3", the display name followed by ".mp3" is the label; otherwise it is the label |
| Naming.DisplayNameDefault | app.py:19 | an absent, empty or whitespace-only title gives "mp3" |
| Naming.DisplayNameFromTitle | app.py:19-21 | a title with some non-whitespace gives its stripped text, less one trailing ".mp3" |
| Naming.DisplayNameDropsExtension | app.py:19-21 | the title "X.mp3", with X not starting with whitespace, gives X |
| Naming.DisplayNameEpisodeExample | app.py:19-21 | "Episode 5.mp3" gives "Episode 5" |
| Naming.DisplayNameStripsOnce | app.py:20-21 | ".mp3" is removed once only: a label ending in ".mp3.mp3" leaves a display name that still ends in ".mp3" |
| Naming.DisplayNameEmptyIff | app.py:19-21 | the display name is empty exactly when the stripped title is ".mp3" |
| Naming.DisplayNameNoLeadingSpace | app.py:19-21 | a display name never starts with whitespace |
| Naming.Sanitize | app.py:28 | the three chained replacements keep the length, turn each `/`, `\` and `:` into `_`, leave every other character, and leave no path character |
| Naming.SanitizeFixesExactlyClean | app.py:28 | sanitising leaves a name unchanged exactly when it has no path character |
| Naming.SanitizeIdempotent | app.py:28 | sanitising twice is sanitising once |
| Naming.FileNamesFor | app.py:29-30 | no contract; defined as the sanitised base followed by ".mp3" and by ".pdf"; its properties are in FileNamesShareBase |
| Naming.FileNamesShareBase | app.py:28-30 | the .mp3 name and the .pdf name start with the same sanitised base, are four characters longer than the display name, differ, end in their extensions and hold no path character |
| Naming.FileNamesCollideIff | app.py:28-30 | two display names give the same two file names exactly when they sanitise to the same base |
| Naming.FileNamesCollisionExample | app.py:28-30 | the distinct titles "a/b" and "a:b" both give "a_b.mp3" and "a_b.pdf" |
| Scraper.IsMp3Anchor | app.py:16-17 | no contract; defined as: the anchor has an `href` and it ends in ".mp3" |
| Scraper.EntryFor | app.py:18-22 | no contract; defined as the pair (urljoin of the page URL and the href, display name of the title) |
| Scraper.Mp3Links | app.py:15-23 | the specification of the loop: at most one entry per anchor; defined on prefixes, the last anchor adding its entry when it qualifies; its meaning is proved by Mp3LinksSelects |
| Scraper.Mp3Indices | app.py:16-17 | the positions of the qualifying anchors are in range, strictly increasing, and are exactly the positions whose `href` exists and ends in ".mp3" |
| Scraper.Mp3LinksSelects | app.py:15-23 | the result has one entry per qualifying anchor, in page order, each being the urljoin of the page URL and that anchor's href, paired with the anchor's display name |
| Scraper.Mp3LinksEmptyIff | app.py:15-23 | the result is empty exactly when no anchor has an `href` ending in ".mp3" |
| Scraper.Mp3LinksAppend | app.py:15-23 | the anchors of two parts of a page give the two results one after the other |
| Scraper.Mp3LinksKeepsDuplicates | app.py:15-23 | a repeated page gives its links repeated: equal links are not merged |
| Scraper.Mp3LinksKeep | app.py:17-22 | one more qualifying anchor appends exactly its own entry |
| Scraper.Mp3LinksSkip | app.py:17 | one more anchor that does not qualify leaves the result unchanged |
| Scraper.KeepsFirstAndLast | app.py:15-23 | of three anchors where only the middle one does not qualify, exactly the first and the last give entries, in that order |
| Scraper.TwoLinkPage | app.py:15-23 | a page with "X.mp3"-titled audio, a non-audio link and untitled audio gives the two entries (resolved href, X) and (resolved href, "mp3") |
| Scraper.ScrapeMp3Links | app.py:15-23 | the loop over the anchors returns exactly the specification's list of entries |
| AppRoutes.ArtifactInFolder | app.py:28-50 | (the names at lines 28-30, the joins at lines 34 and 50) both files of a link lie directly in the folder, under names with no path character that share the sanitised base and end in ".mp3" and ".pdf" |
| AppRoutes.ArtifactFor | app.py:34-50 | no contract; defined as the link's URL with the two file names joined to the folder; its properties are in ArtifactInFolder |
| AppRoutes.ProcessMp3s | app.py:26-50 | (the names and the joins at lines 34 and 50; the I/O between them is left out) when every step succeeds, one artifact per link, in order, each with the link's URL and the two joined paths |
| AppRoutes.FolderPath | app.py:76 | a relative folder name is appended to "static/" (a name containing ".." can still leave it); an absolute one replaces it |
| AppRoutes.Index | app.py:71-80 | "No MP3 links found." exactly when no anchor qualifies. Otherwise the folder is `os.path.join("static", folder)` and, when every step succeeds, every scraped link is processed in order |

## Left out

- The HTTP fetch of the page and the download streaming of each audio file
  (app.py:13, 33-38) are I/O and are not modelled. The page arrives as its
  sequence of anchors.
- HTML parsing is left out. `BeautifulSoup(...).find_all('a', href=True)` is
  represented by that sequence of anchors in document order. An anchor
  without `href` is `None` and is skipped, as `href=True` does.
- `requests.compat.urljoin` is not modelled. It is a function parameter, so
  the results hold for every URL-resolution function.
- The Whisper transcription (app.py:42-47) is a network call and is left
  out.
- The PDF rendering with FPDF and its font (app.py:50-61) is left out; the
  model records the PDF path only.
- `os.makedirs` (app.py:77) is an effect and is not modelled. `Index` marks
  the point where it runs by returning `Completed`, which happens only once
  links were found.
- The file listing, the HTML reply, the GET form and the `/download` route
  (app.py:83-126) are presentation and file serving and are left out.
- The `print` logging (app.py:39, 62) is left out.
- `transcribe.py` is not part of this model.
- `app.py` has no size limit on downloads and no task queue, so the model
  has neither. It creates the folder only after links were found, and the
  model does the same.
- AppRoutes.Index: every download, transcription and PDF write is assumed
  to succeed. In `app.py` nothing catches an exception from `requests.get`
  (app.py:33), the Whisper call (app.py:43) or `pdf.output` (app.py:61).
  One such failure stops the remaining links from being processed, and the
  request fails instead of returning the listing. An HTTP error status
  does not raise at app.py:33: the error page is written as the ".mp3"
  file and the transcription then fails. The model does not capture any
  of this.
- AppRoutes.ProcessMp3s: the same assumption holds, so it always returns
  one artifact per link.
- PyStr.PathJoin models `os.path.join` as on POSIX. On Windows a `\` or a
  drive prefix would also reset the join, and this is not captured.
- PyStr.IsSpace covers the whitespace code points of CPython's
  `str.isspace`. The model works on Unicode code points without surrogate
  pairs or normalisation.
