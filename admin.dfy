/**
  The list-column helpers of myapp/admin.py: `UserActionAdmin.comment_preview`
  and `MovieAdmin.poster_preview`. `format_html`'s escaping is not modelled;
  the result records which markup is chosen and the text placed in it.
 */
module Admin {
  import opened Wrappers

  /** How many characters of a comment the list shows. */
  const PreviewLength: nat := 50

  /** The cell: a dash, or a `<span title="comment">preview</span>`. */
  datatype CommentCell = CommentDash | CommentSpan(title: string, text: string)

  /** The cell: a dash, or an `<img src="poster">`. */
  datatype PosterCell = PosterDash | PosterImage(src: string)

  /**
    `comment_preview`: a dash for a missing or empty comment; otherwise the
    whole comment as the tooltip and, as the text, the comment itself when
    it has at most 50 characters, else its first 50 followed by `...`.
   */
  function CommentPreview(comment: Option<string>): (r: CommentCell)
    ensures r == CommentDash <==> comment.None? || comment.value == []
    ensures r.CommentSpan? ==> r.title == comment.value
    ensures r.CommentSpan? && |comment.value| <= PreviewLength ==> r.text == comment.value
    ensures r.CommentSpan? && |comment.value| > PreviewLength ==>
      r.text == comment.value[..PreviewLength] + "..."
  {
    if comment.Some? && comment.value != [] then
      var c := comment.value;
      var preview := if |c| > PreviewLength then c[..PreviewLength] + "..." else c;
      CommentSpan(c, preview)
    else
      CommentDash
  }

  /**
    A preview is never longer than 53 characters, never empty, and starts
    with the comment's first characters (all of them when it is short).
   */
  lemma PreviewBounded(comment: Option<string>)
    ensures var r := CommentPreview(comment);
      r.CommentSpan? ==>
        var n := if |comment.value| < PreviewLength then |comment.value| else PreviewLength;
        && 0 < |r.text| <= PreviewLength + 3
        && n <= |r.text|
        && r.text[..n] == comment.value[..n]
  {
  }

  /** `poster_preview`: a dash for a missing or empty poster, else the image of the poster URL. */
  function PosterPreview(poster: Option<string>): (r: PosterCell)
    ensures r == PosterDash <==> poster.None? || poster.value == []
    ensures r.PosterImage? ==> r.src == poster.value
  {
    if poster.Some? && poster.value != [] then PosterImage(poster.value) else PosterDash
  }
}
