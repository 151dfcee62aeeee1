# antenati: a Dafny model of the page-walking downloader and its GUI helpers

The repository downloads the page images of a register from the Portale
Antenati. This model covers its sequential, deterministic parts:

- **URL names** (`url_names.dfy`, module `UrlNames`). `main` splits the page
  URL with `re.split('[_/?.]', url)`. It names the destination folder after
  tokens 10 to 12, with `+` turned into `_`. It names every page image
  `img_archive_<t13>_<t14>_<t15>.jpg`. `Split` is proved to be the unique
  decomposition of the URL into separator-free tokens, in both directions.
  The folder and image names are then proved to exist exactly when there are
  enough tokens, and to keep to a fixed character shape.
- **The two HTML parsers** (`html_parsers.dfy`, module `HtmlParsers`).
  `ImageHtmlParser` starts one download per `a` tag. `UrlHtmlParser` moves
  `next` to the link of an `a` tag whose second attribute is `next`. Both are
  classes whose methods are proved against pure feed functions, `ImageFeed`
  and `UrlFeed`. Lemmas tie those functions to independent descriptions: the
  jobs of a feed are one per anchor, in order, and `next` ends on the last
  `next` anchor.
- **`main`** (`page_walk.dfy`, module `PageWalk`). It checks the command
  line, derives the folder and refuses one that exists. It then fetches page
  after page, feeding lines that contain `zoomAntenati1` to the image parser
  and lines that contain `successivo` to the URL parser. It stops after a
  page without `successivo`, and finally joins every started download.
  `Execute` runs the real loops over the two parser objects and is proved equal
  to the function `Run`. Lemmas prove the stop rule and the link following
  over the whole walk.
- **GUI helpers** (`gui.dfy`, module `Gui`). The progress counter
  `_ProgressBarSetter` is a class proved against a transition function
  `Apply`. The completion flag `_CompletedFlag.set_at_exit` is modelled, and
  so are the two input checks at the top of `_Window.__download`.

`wrappers.dfy` holds `Option`, `Result` and the Python exceptions the code
can raise (`IndexError`, `TypeError`, `ZeroDivisionError`), as values.

The network is a function from a URL to the lines of the page it returns. The
file system is the set of paths that already exist (`os.path.exists` is true
for a plain file as well as for a folder). A started download
thread is the record of its arguments (`Job`).

`main` starts one thread per image and joins them all at the end; there is
no worker pool, connection cap or failure map.

## Model

| member | source | states |
|---|---|---|
| `UrlNames.Split` | antenati.py:51 | the split always yields at least one token, even for an empty URL |
| `UrlNames.SplitRoundTrip` | antenati.py:51 | there is one more token than separators; no token contains `_`, `/`, `?` or `.`; gluing the tokens back with the separators found gives the URL back |
| `UrlNames.SplitUnique` | antenati.py:51 | any decomposition into separator-free tokens with separators between them is exactly the split and its separators |
| `UrlNames.SplitCharacterised` | antenati.py:51 | both directions: tokens and separators are the split of a URL if and only if they decompose it into separator-free tokens |
| `UrlNames.ReplacePlus` | antenati.py:53-55 | `replace('+', '_')` keeps the length, puts `_` where the input had `+` and keeps every other character |
| `UrlNames.ReplacePlusCounts` | antenati.py:53-55 | the result has no `+`; its `_` count is the input's `_` count plus its `+` count; every other character count is unchanged |
| `UrlNames.FolderNameDefined` | antenati.py:51-56 | the folder name exists if and only if the URL has at least 12 separators (13 tokens); otherwise it is an IndexError; when it exists it is tokens 10, 11 and 12 with `+` replaced, joined by `_` |
| `UrlNames.FolderNameCharacters` | antenati.py:51-56 | the folder name has no `+`, `/`, `?` or `.`, and its `_` count is 2 plus the `+` count of the three tokens |
| `UrlNames.FolderNameSplitsBack` | antenati.py:51-56 | when the three tokens have no `+`, splitting the folder name gives them back |
| `UrlNames.ImageBaseDefined` | antenati.py:70-71 | the image base name exists if and only if the URL has at least 15 separators (16 tokens); otherwise it is an IndexError |
| `UrlNames.ImageFileNameShape` | antenati.py:70-71 | the saved name is `img_archive_`, then tokens 13, 14 and 15 joined by `_`, then `.jpg` (the format of `set_filename`, line 24); the middle has exactly two `_` and no `/`, and splitting it gives the three tokens back |
| `HtmlParsers.ImageHtmlParser.constructor` | antenati.py:18-20 | a new image parser has no file name (`None`) and no jobs |
| `HtmlParsers.ImageHtmlParser.SetFilename` | antenati.py:23-24 | the file name becomes `img_archive_` + name + `.jpg`; the jobs are untouched |
| `HtmlParsers.ImageHtmlParser.HandleStartTag` | antenati.py:25-30 | the jobs and the exception are those of one step of `ImageFeed`; an exception leaves the jobs as they were |
| `HtmlParsers.ImageHtmlParser.Feed` | antenati.py:75 | feeding a line's tags leaves exactly the jobs and exception given by `ImageFeed` from the old jobs |
| `HtmlParsers.ImageFeedSucceeds` | antenati.py:25-27 | a feed raises if and only if some `a` tag has no attributes; the exception is then IndexError |
| `HtmlParsers.ImageFeedKeepsJobs` | antenati.py:25-30 | earlier jobs are never removed, and at most one job is added per `a` tag; this holds on the error path too |
| `HtmlParsers.ImageFeedJobs` | antenati.py:25-30 | a successful feed appends exactly one job per `a` tag, in order; each has that tag's first attribute value as URL and the current file name; non-`a` tags add nothing |
| `HtmlParsers.JobsOfAt` | antenati.py:27-28 | the i-th job comes from the i-th anchor's first attribute value |
| `HtmlParsers.UrlHtmlParser.constructor` | antenati.py:33-34 | a new URL parser has `next == ""` |
| `HtmlParsers.UrlHtmlParser.SetNext` | antenati.py:35-36 | `next` becomes the given name |
| `HtmlParsers.UrlHtmlParser.HandleStartTag` | antenati.py:39-42 | the new `next` and the exception are those of one step of `UrlFeed`; an exception leaves `next` unchanged |
| `HtmlParsers.UrlHtmlParser.Feed` | antenati.py:78 | feeding a line's tags leaves exactly the `next` and exception given by `UrlFeed` from the old `next` |
| `HtmlParsers.UrlStepChangesOnlyOnNextAnchor` | antenati.py:39-42 | a tag other than an `a` tag whose second attribute value is `next` leaves `next` unchanged, or raises IndexError when it is an `a` tag with fewer than two attributes; a `next` anchor sets `next` to the host plus its first attribute value, or raises TypeError when that value is missing |
| `HtmlParsers.UrlFeedSpec` | antenati.py:39-42 | a feed succeeds if and only if every tag is acceptable; `next` is then the host plus the link of the last `next` anchor, or unchanged when there is none |
| `PageWalk.ScanPageSpec` | antenati.py:73-78 | one page pass gives the image parser exactly the tags of the `zoomAntenati1` lines and the URL parser exactly those of the `successivo` lines, in page order; it raises if and only if one of those feeds would; `stop` stays set if and only if no line contains `successivo` |
| `PageWalk.ScanPageKeepsJobs` | antenati.py:73-78 | a page pass never removes a job |
| `PageWalk.ScanLines` | antenati.py:73-78 | on both the normal and the error path, the line loop leaves the jobs (including those started before an exception), `next`, `stop` and exception given by the page pass, starting with `stop` set |
| `PageWalk.WalkStopRule` | antenati.py:65-78 | a fetched page is followed by another fetch if and only if it has a `successivo` line; a walk that ends by itself ends on its first page without one; a walk cut off by the fuel bound fetched exactly that many pages |
| `PageWalk.WalkFollowsLinks` | antenati.py:67-78 | the walk starts at the given URL; each next URL is what the URL parser made of the previous page's `successivo` lines; no job is removed |
| `PageWalk.JoinAll` | antenati.py:80-81 | every started job is joined, in start order |
| `PageWalk.Execute` | antenati.py:45-81 | the method's outcome equals `Run`: IndexError without a command-line argument or with too few URL tokens; a stop when a path of the folder's name exists; otherwise the walk, ending either in its exception together with the pages fetched and the jobs already started (their non-daemon threads still finish), or in the joins of all jobs started |
| `Gui.ProgressBarSetter.constructor` | antenati_gui.py:25-29 | a new setter has `total == 0`, `n == 0`, an empty bar and nothing scheduled |
| `Gui.ProgressBarSetter.SetTotal` | antenati_gui.py:31-33 | `total` becomes `t`; `n`, the bar and the schedule are unchanged |
| `Gui.ProgressBarSetter.SetValue` | antenati_gui.py:35-37 | only the bar value changes |
| `Gui.ProgressBarSetter.Reset` | antenati_gui.py:39-43 | `total`, `n` and the bar value become 0 |
| `Gui.ProgressBarSetter.Update` | antenati_gui.py:45-49 | `n` grows by exactly 1 and `total` is unchanged; with a total, `100*n/total` is queued for Tk; with `total == 0` it raises ZeroDivisionError after counting |
| `Gui.UpdatesAfterSetTotal` | antenati_gui.py:31-49 | after `set_total(t)` and k updates, `total == t`, `n` grew by exactly k, and the i-th update queued `100*(n0+i)/t` |
| `Gui.CountFromZero` | antenati_gui.py:31-49 | from `n == 0`, after `set_total(t)` and k updates, `n == k` and the last queued value is `100*k/t`; for a positive total the queued values grow strictly and none exceeds 100 while `k <= t` |
| `Gui.PercentAtMost100` | antenati_gui.py:48 | `100*n/total` lies between 0 and 100 when `0 <= n <= total`, and equals 100 at `n == total` |
| `Gui.PercentIncreasing` | antenati_gui.py:48 | for a positive total, a larger count gives a larger percentage |
| `Gui.ResetClears` | antenati_gui.py:39-43 | a reset after any calls zeroes both counters and the bar, whatever came before |
| `Gui.CompletedFlag.constructor` | antenati_gui.py:52-54 | the flag wraps the given variable value |
| `Gui.CompletedFlag.SetAtExit` | antenati_gui.py:56-62 | the variable is set to true whether the body returned or raised, and the body's result or exception passes through unchanged |
| `Gui.CheckDownloadInputs` | antenati_gui.py:139-145 | an empty URL raises `Please enter a valid URL.` whatever the path; otherwise an empty path raises `Please enter a valid destination folder.`; both non-empty lets the download proceed |

## Left out

- Network and file I/O (antenati.py:10-15, 58-63, 69) are not modelled. The HTTP requests, the image file writes, `os.mkdir`, `os.chdir` and the message printed for an existing folder are left out. The fetch is a function from URL to page lines, and folder existence is a set of names.
- The download threads (antenati.py:28-30, 80-81) are only records of their URL and file name. Their concurrent execution is not modelled, nor their failures, such as a `None` URL handed to a thread.
- The class-level `threads = []` of `ImageHTMLParser` is shared by all instances in Python. It is modelled as a field of each object, because `main` creates only one image parser.
- The HTML tokenizer of Python's `HTMLParser` is a library and is not modelled. That covers tag-name lowercasing, attribute unescaping, `<a/>` tags and text buffered across `feed` calls. A line arrives with the start tags the tokenizer reports for it.
- Splitting the response body on `"\n"` is not modelled. The fetch function returns the lines directly.
- `get_threads` and `get_next` are plain field reads and are modelled as such.
- PageWalk.Execute: fetches at most `fuel` pages and ends in `OutOfFuel` beyond that. The Python loop has no bound: a chain of `successivo` pages that never ends, or a page whose link leads back to itself, makes it loop forever.
- Gui.ProgressBarSetter.Update: computes `100*n/total` as an exact rational, not as a double-precision float.
- The Tk event loop that later runs the queued `__set` calls is not modelled. The model keeps the queue of values handed to `after(0, ...)`.
- The rest of `_Window.__download` (antenati_gui.py:146-155) is not modelled. It calls `antenati.AntenatiDownloader`, `antenati.ProgressBar` and `antenati.DEFAULT_*`, and antenati.py does not define them.
- The Tkinter windows, menus, dialogs, `webbrowser`, the `ThreadPoolExecutor` hand-off, `wait_variable`, `humanize.naturalsize` and the `__in_progress`, `__progress_bar_setter` and `__wait_flag` context managers are UI and concurrency, and are not modelled (antenati_gui.py:65-137, 148-184).
- selenium_utils.py is browser automation through a foreign library, and is not part of this model.
