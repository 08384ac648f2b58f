/** The two Dash callbacks, `update_output` and `download_comments`, with the
    page framework, pandas and the spreadsheet writer replaced by values. */
module Callbacks {
  import opened Python
  import opened VideoId
  import opened Comments

  /** A value shown in a table cell or written to a spreadsheet cell. */
  datatype Cell = Str(s: string) | Int(n: int)

  /** The keys of every record, in insertion order. */
  const Keys: seq<string> := ["Autor", "Comentario", "Likes", "Publicado en"]

  /** `record[key]`. */
  function Field(rec: CommentRecord, key: string): Cell
    requires key in Keys
  {
    if key == "Autor" then Str(rec.autor)
    else if key == "Comentario" then Str(rec.comentario)
    else if key == "Likes" then Int(rec.likes)
    else Str(rec.publicadoEn)
  }

  /** The four cells of a record in key order. */
  function Cells(rec: CommentRecord): seq<Cell> {
    [Str(rec.autor), Str(rec.comentario), Int(rec.likes), Str(rec.publicadoEn)]
  }

  /** `pd.DataFrame(comments_data).columns`: the keys of the records, and no
      columns at all for an empty list. */
  function Columns(recs: seq<CommentRecord>): seq<string> {
    if recs == [] then [] else Keys
  }

  /** Header cells and body rows of cells: the content of the `html.Table`,
      and also of the sheet that `to_excel(..., index=False)` writes. */
  datatype Table = Table(header: seq<string>, body: seq<seq<Cell>>)

  /** The table built from the data frame: one header cell per column, one row
      per record, and in each row the record's value for each column. */
  function RenderTable(recs: seq<CommentRecord>): (t: Table)
    ensures t.header == Keys <==> recs != []
    ensures recs == [] ==> t.header == [] && t.body == []
    ensures |t.body| == |recs|
    ensures forall i :: 0 <= i < |recs| ==> |t.body[i]| == |t.header|
    ensures forall i, j :: 0 <= i < |recs| && 0 <= j < |t.header| ==> t.body[i][j] == Field(recs[i], t.header[j])
  {
    var cols := Columns(recs);
    Table(cols, seq(|recs|, i requires 0 <= i < |recs| =>
                  seq(|cols|, j requires 0 <= j < |cols| => Field(recs[i], cols[j]))))
  }

  /** Each body row lists the record's author, text, like count and date, in that order. */
  lemma RenderedRows(recs: seq<CommentRecord>, i: nat)
    requires i < |recs|
    ensures RenderTable(recs).header == Keys
    ensures RenderTable(recs).body[i] == Cells(recs[i])
  {
  }

  /** What the callback puts in `output-div`. */
  datatype Children = Text(text: string) | Rendered(table: Table)

  /** The `display` entry of the download button's style. */
  datatype Display = InlineBlock | Hidden

  const InvalidLinkMessage: string := "Link de YouTube inválido"

  /** `get_video_id` applied to the text field's value, which Dash passes as
      `None` while the field has never been filled; `re.match` then raises. */
  function VideoIdOf(url: Option<string>): (r: Outcome<Option<string>>)
    ensures url.None? <==> r == Raise(TypeError)
    ensures url.Some? ==> r == GetVideoId(url.value)
  {
    match url
    case None => Raise(TypeError)
    case Some(u) => GetVideoId(u)
  }

  /** `update_output(n_clicks, url)`, returning the pair
      (children of `output-div`, display of the download button). */
  function UpdateOutput(nClicks: int, url: Option<string>, api: Api): (r: Outcome<(Children, Display)>)
    ensures nClicks <= 0 ==> r == Return((Text(""), Hidden))
    ensures r == Return((Text(InvalidLinkMessage), Hidden)) <==>
              nClicks > 0 && url.Some? && !InPattern(url.value)
    ensures r.Return? ==> (r.value.1 == InlineBlock <==> r.value.0.Rendered?)
    ensures nClicks > 0 && url.None? ==> r == Raise(TypeError)
    ensures nClicks > 0 && url.Some? && InPattern(url.value) && (forall j: nat :: !QualifiesAt(url.value, j)) ==>
              r == Raise(AttributeError)
    ensures r == Raise(HttpError) ==>
              nClicks > 0 && url.Some? && GetVideoId(url.value).Return? && GetVideoId(url.value).value.Some? &&
              api(ThreadsRequest(GetVideoId(url.value).value.value)).Failed?
    ensures nClicks > 0 && url.Some? && GetVideoId(url.value).Return? && GetVideoId(url.value).value.Some? &&
            api(ThreadsRequest(GetVideoId(url.value).value.value)).Failed? ==>
              r == Raise(HttpError)
  {
    if nClicks > 0 then
      match VideoIdOf(url)
      case Raise(e) => Raise(e)
      case Return(videoId) =>
        if videoId.Some? && Truthy(videoId.value) then
          match CommentsFor(videoId.value, api)
          case Raise(e) => Raise(e)
          case Return(commentsData) => Return((Rendered(RenderTable(commentsData)), InlineBlock))
        else
          Return((Text(InvalidLinkMessage), Hidden))
    else
      Return((Text(""), Hidden))
  }

  /** A valid link whose request succeeds shows one row per returned thread
      item, in response order, each row copying that item's comment fields,
      and makes the download button visible. */
  lemma ValidLinkShowsComments(nClicks: int, url: string, api: Api, items: seq<ThreadItem>)
    requires nClicks > 0
    requires GetVideoId(url).Return? && GetVideoId(url).value.Some?
    requires api(ThreadsRequest(GetVideoId(url).value.value)) == Response(items)
    ensures UpdateOutput(nClicks, Some(url), api).Return?
    ensures UpdateOutput(nClicks, Some(url), api).value.1 == InlineBlock
    ensures UpdateOutput(nClicks, Some(url), api).value.0.Rendered?
    ensures |UpdateOutput(nClicks, Some(url), api).value.0.table.body| == |items|
    ensures items != [] ==> UpdateOutput(nClicks, Some(url), api).value.0.table.header == Keys
    ensures forall i :: 0 <= i < |items| ==>
              var c := Snippet(items[i]);
              UpdateOutput(nClicks, Some(url), api).value.0.table.body[i] ==
              [Str(c.authorDisplayName), Str(c.textDisplay), Int(c.likeCount), Str(c.publishedAt)]
  {
    var recs := Reshape(items);
    var t := RenderTable(recs);
    assert UpdateOutput(nClicks, Some(url), api) == Return((Rendered(t), InlineBlock));
    forall i | 0 <= i < |items|
      ensures t.body[i] == [Str(Snippet(items[i]).authorDisplayName), Str(Snippet(items[i]).textDisplay),
                            Int(Snippet(items[i]).likeCount), Str(Snippet(items[i]).publishedAt)]
    {
      RenderedRows(recs, i);
      assert CopiedFrom(recs[i], items[i]);
    }
  }

  /** Submitting text that is not a link shows the invalid-link message and
      keeps the download button hidden. */
  lemma NotAUrlShowsMessage(nClicks: int, api: Api)
    requires nClicks > 0
    ensures UpdateOutput(nClicks, Some("not a url"), api) == Return((Text(InvalidLinkMessage), Hidden))
    ensures DownloadComments(nClicks, Some("not a url"), api) == Return(None)
  {
  }

  /** The name of the spreadsheet sent for a video. */
  function ExcelFilename(videoId: string): (f: string)
    ensures |f| == |videoId| + 22
    ensures f[..17] == "youtube_comments_" && f[17..|f| - 5] == videoId && f[|f| - 5..] == ".xlsx"
  {
    "youtube_comments_" + videoId + ".xlsx"
  }

  /** Different videos get different file names. */
  lemma ExcelFilenameInjective(a: string, b: string)
    requires ExcelFilename(a) == ExcelFilename(b)
    ensures a == b
  {
  }

  /** What `dcc.send_data_frame(df.to_excel, output_filename, index=False)`
      hands to the browser: a file name and the sheet's header and rows. */
  datatype Download = Download(filename: string, sheet: Table)

  /** `download_comments(n_clicks, url)`. */
  function DownloadComments(nClicks: int, url: Option<string>, api: Api): (r: Outcome<Option<Download>>)
    ensures r == Return(None) <==> nClicks <= 0 || (url.Some? && !InPattern(url.value))
    ensures r.Return? && r.value.Some? ==>
              nClicks > 0 && url.Some? && GetVideoId(url.value).Return? && GetVideoId(url.value).value.Some? &&
              r.value.value.filename == ExcelFilename(GetVideoId(url.value).value.value)
    ensures nClicks > 0 && url.None? ==> r == Raise(TypeError)
    ensures nClicks > 0 && url.Some? && InPattern(url.value) && (forall j: nat :: !QualifiesAt(url.value, j)) ==>
              r == Raise(AttributeError)
    ensures nClicks > 0 && url.Some? && GetVideoId(url.value).Return? && GetVideoId(url.value).value.Some? &&
            api(ThreadsRequest(GetVideoId(url.value).value.value)).Failed? ==>
              r == Raise(HttpError)
    ensures nClicks > 0 && url.Some? && GetVideoId(url.value).Return? && GetVideoId(url.value).value.Some? &&
            api(ThreadsRequest(GetVideoId(url.value).value.value)).Response? ==>
              var id := GetVideoId(url.value).value.value;
              r == Return(Some(Download(ExcelFilename(id), RenderTable(Reshape(api(ThreadsRequest(id)).items)))))
  {
    if nClicks > 0 then
      match VideoIdOf(url)
      case Raise(e) => Raise(e)
      case Return(videoId) =>
        if videoId.Some? && Truthy(videoId.value) then
          match CommentsFor(videoId.value, api)
          case Raise(e) => Raise(e)
          case Return(commentsData) =>
            Return(Some(Download(ExcelFilename(videoId.value), RenderTable(commentsData))))
        else
          Return(None)
    else
      Return(None)
  }

  /** The downloaded sheet holds exactly the table the page shows for the same
      link and API reply. */
  lemma DownloadMatchesDisplay(nClicks: int, url: Option<string>, api: Api)
    requires DownloadComments(nClicks, url, api).Return? && DownloadComments(nClicks, url, api).value.Some?
    ensures UpdateOutput(nClicks, url, api).Return?
    ensures UpdateOutput(nClicks, url, api).value ==
              (Rendered(DownloadComments(nClicks, url, api).value.value.sheet), InlineBlock)
  {
  }

  /** A valid link whose request succeeds is downloaded as the sheet of its
      reshaped comments, under the file name derived from the video id. */
  lemma ValidLinkDownloads(nClicks: int, url: string, id: string, api: Api, items: seq<ThreadItem>)
    requires nClicks > 0
    requires GetVideoId(url) == Return(Some(id))
    requires api(ThreadsRequest(id)) == Response(items)
    ensures DownloadComments(nClicks, Some(url), api) ==
              Return(Some(Download(ExcelFilename(id), RenderTable(Reshape(items)))))
  {
  }

  /** Conversely, whenever the page shows a table, the download for the same
      inputs is that table under the video's file name. */
  lemma DisplayMatchesDownload(nClicks: int, url: Option<string>, api: Api)
    requires UpdateOutput(nClicks, url, api).Return? && UpdateOutput(nClicks, url, api).value.0.Rendered?
    ensures DownloadComments(nClicks, url, api).Return? && DownloadComments(nClicks, url, api).value.Some?
    ensures DownloadComments(nClicks, url, api).value.value.sheet == UpdateOutput(nClicks, url, api).value.0.table
  {
  }
}
