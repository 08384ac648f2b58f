/** `get_comments`: one comment-thread list request, then the loop that turns
    each returned thread item into a four-field record. */
module Comments {
  import opened Python

  /** `item['snippet']['topLevelComment']['snippet']` of a thread item. */
  datatype CommentSnippet = CommentSnippet(
    authorDisplayName: string,
    textDisplay: string,
    likeCount: nat,
    publishedAt: string)

  datatype TopLevelComment = TopLevelComment(snippet: CommentSnippet)

  datatype ThreadSnippet = ThreadSnippet(topLevelComment: TopLevelComment)

  /** One element of `response['items']`. */
  datatype ThreadItem = ThreadItem(snippet: ThreadSnippet)

  /** The parameters of `youtube.commentThreads().list(...)`. */
  datatype ListRequest = ListRequest(part: string, videoId: string, maxResults: nat)

  /** What the client call gives back: the decoded response, or a failure.
      `Failed` stands for any exception that building the client or executing
      the request raises; the model calls all of them `HttpError`. */
  datatype ApiReply = Response(items: seq<ThreadItem>) | Failed

  /** The remote API, seen as a function from request to reply. */
  type Api = ListRequest -> ApiReply

  /** The request `get_comments` sends for a video. */
  function ThreadsRequest(videoId: string): (q: ListRequest)
    ensures q.videoId == videoId && q.part == "snippet" && q.maxResults == 100
  {
    ListRequest("snippet", videoId, 100)
  }

  /** The dictionary appended for one comment, with the keys
      "Autor", "Comentario", "Likes" and "Publicado en". */
  datatype CommentRecord = CommentRecord(autor: string, comentario: string, likes: nat, publicadoEn: string)

  function Snippet(item: ThreadItem): CommentSnippet {
    item.snippet.topLevelComment.snippet
  }

  function ToRecord(item: ThreadItem): CommentRecord {
    var c := Snippet(item);
    CommentRecord(c.authorDisplayName, c.textDisplay, c.likeCount, c.publishedAt)
  }

  /** The record copies the four fields of the item's top-level comment. */
  predicate CopiedFrom(rec: CommentRecord, item: ThreadItem) {
    && rec.autor == Snippet(item).authorDisplayName
    && rec.comentario == Snippet(item).textDisplay
    && rec.likes == Snippet(item).likeCount
    && rec.publicadoEn == Snippet(item).publishedAt
  }

  /** The list the loop builds from `items`, one append per item. */
  function Reshape(items: seq<ThreadItem>): (r: seq<CommentRecord>)
    ensures |r| == |items|
    ensures forall i :: 0 <= i < |items| ==> CopiedFrom(r[i], items[i])
  {
    if items == [] then []
    else Reshape(items[..|items| - 1]) + [ToRecord(items[|items| - 1])]
  }

  /** Reshaping works item by item: it distributes over concatenation. */
  lemma ReshapeAppend(a: seq<ThreadItem>, b: seq<ThreadItem>)
    ensures Reshape(a + b) == Reshape(a) + Reshape(b)
  {
  }

  /** The record list is determined by the items, field by field: any list that
      copies every item in order is the reshaped list. */
  lemma ReshapeUnique(items: seq<ThreadItem>, recs: seq<CommentRecord>)
    requires |recs| == |items|
    requires forall i :: 0 <= i < |items| ==> CopiedFrom(recs[i], items[i])
    ensures recs == Reshape(items)
  {
  }

  /** `get_comments(video_id)` with the API call as the parameter `api`. */
  function CommentsFor(videoId: string, api: Api): (r: Outcome<seq<CommentRecord>>)
    ensures api(ThreadsRequest(videoId)).Failed? <==> r == Raise(HttpError)
    ensures api(ThreadsRequest(videoId)).Response? ==> r == Return(Reshape(api(ThreadsRequest(videoId)).items))
    ensures api(ThreadsRequest(videoId)) == Response([]) ==> r == Return([])
  {
    match api(ThreadsRequest(videoId))
    case Failed => Raise(HttpError)
    case Response(items) => Return(Reshape(items))
  }

  /** `get_comments`: the loop appends one record per item, in order. */
  method GetComments(videoId: string, api: Api) returns (r: Outcome<seq<CommentRecord>>)
    ensures r == CommentsFor(videoId, api)
    ensures r.Return? ==> |r.value| == |api(ThreadsRequest(videoId)).items|
  {
    var reply := api(ThreadsRequest(videoId));
    if reply.Failed? {
      return Raise(HttpError);
    }
    var items := reply.items;
    var commentsData: seq<CommentRecord> := [];
    var i := 0;
    while i < |items|
      invariant 0 <= i <= |items|
      invariant commentsData == Reshape(items[..i])
    {
      var comment := items[i].snippet.topLevelComment.snippet;
      commentsData := commentsData + [CommentRecord(comment.authorDisplayName, comment.textDisplay,
                                                    comment.likeCount, comment.publishedAt)];
      assert items[..i + 1][..i] == items[..i];
      i := i + 1;
    }
    assert items[..i] == items;
    return Return(commentsData);
  }
}
