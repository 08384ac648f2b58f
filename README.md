# get-yt-comments, modelled in Dafny

A small Dash page takes a YouTube link, pulls the first page of top-level
comments for that video from the YouTube Data API, shows them as an HTML
table and offers them as an Excel download. This project models the logic of
`app.py` that does not depend on the page framework:

- `get_video_id` (module `VideoId`): the anchored pattern
  `(https?://)?(www\.)?(youtube\.com|youtu\.?be)/.+$` as a language
  (`InPattern`), a deterministic matcher (`UrlMatches`) proved to accept exactly
  that language, and the unanchored search `v=([^&]+)` (`SearchId`) with the
  leftmost-match and greedy-run behaviour of Python's `re.search`. The `$` of
  the pattern is modelled as Python defines it: it also matches just before a
  final newline, so no precondition on newlines is needed.
- `get_comments` (module `Comments`): the request it sends
  (`part="snippet"`, `maxResults=100`) and the loop that appends one
  four-key record per thread item, as a method with a loop invariant proved
  against the function `Reshape`.
- `update_output` and `download_comments` (module `Callbacks`): the branching
  on the click count and the id, the table (header cells and rows of cells),
  the button's `display` style, and the download's file name and sheet.

Python exceptions are explicit outcomes (`Python.Outcome`): `AttributeError`
when the link matches the pattern but has no `v=` followed by a character
other than `&` (`re.search` returns `None` and `.group(1)` fails),
`TypeError` when the text field's value is still `None`, and `HttpError`,
which stands for any exception the API client raises (building the client,
the request, or its transport). The API call itself is a parameter
`api: ListRequest -> ApiReply` and its response a typed value.

Where the intended behaviour of the page and the code differ, the model follows the code:

- A link that matches the pattern but carries no usable `v=` parameter, such
  as the short link `https://youtu.be/abc123`, was meant to give no id and
  the "invalid link" message; the code raises `AttributeError` instead
  (`ShortLinkRaises`), and the callbacks propagate it.
- The optional dot in `youtu\.?be` also admits the bare host `youtube`.
- The search is unanchored, so `dev=` in a path counts as a `v=` parameter.
- The table header uses the record keys `Autor`, `Comentario`, `Likes`,
  `Publicado en`. When the API returns no comments, `pd.DataFrame([])` has no
  columns, so the table (and the sheet) has no header cells and no rows.
- An API failure is not turned into an error display: the exception leaves
  the callback.

## Model

| member | source | states |
|---|---|---|
| `VideoId.UrlMatchesIff` | app.py:32 | the deterministic matcher succeeds exactly for strings made of an optional `http://`/`https://`, an optional `www.`, a host `youtube.com`, `youtu.be` or `youtube`, a `/` and a tail that `.+$` accepts |
| `VideoId.FirstMatchFrom` | app.py:34 | the returned index is the leftmost one at or after the start where `v=` is followed by a non-`&` character; `None` means there is no such index |
| `VideoId.RunEnd` | app.py:34 | the greedy `[^&]+` stops at the first `&` after its start, or at the end of the string, and crosses no `&` |
| `VideoId.SearchIdNone` | app.py:33-34 | the search finds nothing exactly when no `v=` in the string is followed by a character other than `&` |
| `VideoId.SearchIdSplit` | app.py:34 | a found id is non-empty and `&`-free, and the URL is `prefix + "v=" + id + rest` with `rest` empty or starting with `&` and no qualifying `v=` starting inside `prefix` |
| `VideoId.SearchIdOfSplit` | app.py:34 | conversely every such split of a URL makes the search return exactly that id |
| `VideoId.GetVideoId` | app.py:30-35 | outside the pattern the result is `None`; inside it the result is the searched id when a qualifying `v=` exists (non-empty, no `&`) and an `AttributeError` otherwise |
| `VideoId.WatchUrlExample` | app.py:30-35 | `https://www.youtube.com/watch?v=abc123` yields `abc123` |
| `VideoId.NotAUrlExample` | app.py:31-35 | `not a url` yields `None` |
| `VideoId.ShortLinkRaises` | app.py:33-34 | `https://youtu.be/abc123` matches the pattern and raises `AttributeError` |
| `Comments.ThreadsRequest` | app.py:39-43 | the list request is for the given video id, with `part="snippet"` and `maxResults=100` |
| `Comments.Reshape` | app.py:46-54 | one record per thread item, in order, each copying author name, display text, like count and publication time of the item's top-level comment |
| `Comments.ReshapeAppend` | app.py:47-54 | reshaping a concatenation is the concatenation of the reshaped parts: records depend on their own item only and keep response order |
| `Comments.ReshapeUnique` | app.py:48-54 | any record list of the same length that copies every item field by field is the reshaped list: nothing else is added |
| `Comments.CommentsFor` | app.py:37-55 | a failed request raises `HttpError` and only then; a response always returns the reshaped items; an empty response gives an empty list |
| `Comments.GetComments` | app.py:46-55 | the append loop computes `CommentsFor`, one record per returned item |
| `Callbacks.RenderTable` | app.py:68-78 | the header is `Autor, Comentario, Likes, Publicado en` exactly when there are records (none otherwise), there is one body row per record, and each row holds the record's value for each header cell in header order |
| `Callbacks.RenderedRows` | app.py:71-76 | row `i` lists author, text, like count and date of record `i`, in that order |
| `Callbacks.VideoIdOf` | app.py:61-65 | a text field never filled (`None`) makes the id extraction raise `TypeError`; otherwise it is `get_video_id` of the text |
| `Callbacks.UpdateOutput` | app.py:63-82 | no clicks give `("", hidden)` whatever the link; the invalid-link message with a hidden button comes exactly from clicks on a link outside the pattern; the button is visible exactly when a table is shown; a matching link without `v=` raises `AttributeError`, a failed request `HttpError` |
| `Callbacks.ValidLinkShowsComments` | app.py:66-79 | a valid id with a successful request shows a table with the button visible, one row per returned item whose cells are that item's comment fields in header order |
| `Callbacks.NotAUrlShowsMessage` | app.py:80-81 | after a click, `not a url` shows the invalid-link message, hides the button and downloads nothing |
| `Callbacks.ExcelFilename` | app.py:95 | the file name is `youtube_comments_`, then the id, then `.xlsx` |
| `Callbacks.ExcelFilenameInjective` | app.py:95 | two ids with the same file name are the same id |
| `Callbacks.DownloadComments` | app.py:89-97 | the result is `None` exactly when there were no clicks or the link is outside the pattern; after a click on a link with a valid id, a successful reply gives the download of the reshaped comments named after the id and a failed one raises `HttpError`; the missing-text and missing-`v=` cases raise |
| `Callbacks.ValidLinkDownloads` | app.py:90-96 | a valid id with a successful reply is downloaded as `youtube_comments_<id>.xlsx` holding the table of its reshaped comments |
| `Callbacks.DownloadMatchesDisplay` | app.py:89-97 | for the same click count, link and API reply, a download happens only when the page would show a table with a visible button, and its sheet is that table |
| `Callbacks.DisplayMatchesDownload` | app.py:63-97 | for the same click count, link and API reply, whenever the page shows a table the download exists and its sheet is that table |

## Left out

- The API client (`build`, `commentThreads().list`, `execute`, app.py:38-44) is a network call; it is the parameter `api`, and its JSON response is a typed value, so a response missing one of the read keys (a `KeyError`) is not modelled.
- Loading the API key from the environment (app.py:9-11) is I/O; the key does not appear in the model.
- The Dash layout, callback registration and server start (app.py:13-28, 57-62, 84-88, 99-100) are framework plumbing; the callbacks are modelled as functions of their inputs, with the click count as an integer.
- pandas and the Excel writer (app.py:68, 94-96): the data frame is the record list, its columns are `Columns`, and the written sheet is the same header and rows as the HTML table; the file bytes are not modelled.
- How Dash renders a cell value as HTML text is not modelled; a cell is a string or an integer.
- Each callback calls the API once per invocation; the model passes the same `api` function to both callbacks, so it does not capture replies that change between the page view and the download.
- The two callbacks are triggered by different buttons with their own click counts (app.py:60, 86) and each re-reads the text field (app.py:61, 87), so a link edited after submitting is downloaded for a different video than the table shows; `DownloadMatchesDisplay` and `DisplayMatchesDownload` relate the callbacks only for identical arguments.
