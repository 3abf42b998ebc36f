/**
  The list-column helpers of the chat admin site: a long text is shown as its
  first characters followed by `...`, a short one unchanged. Characters are
  code points, as Python's `len` and slicing count them.
 */
module ChatAdmin {

  const ContentLimit: nat := 50
  const KeywordsLimit: nat := 30
  const ResponseLimit: nat := 50

  /** `text[:limit] + '...' if len(text) > limit else text` */
  function Truncate(text: string, limit: nat): (r: string)
    ensures |text| <= limit ==> r == text
    ensures |text| > limit ==> r == text[..limit] + "..."
    ensures |r| <= limit + 3
    ensures var keep := if |text| <= limit then |text| else limit;
            |r| >= keep && r[..keep] == text[..keep]
  {
    if |text| > limit then text[..limit] + "..." else text
  }

  /** The `Content` column of the chatbot-message list. */
  function ContentPreview(content: string): (r: string)
    ensures |r| <= 53
    ensures |content| <= 50 ==> r == content
    ensures |content| > 50 ==> r == content[..50] + "..."
  {
    Truncate(content, ContentLimit)
  }

  /** The `Keywords` column of the bot-response list. */
  function KeywordsPreview(keywords: string): (r: string)
    ensures |r| <= 33
    ensures |keywords| <= 30 ==> r == keywords
    ensures |keywords| > 30 ==> r == keywords[..30] + "..."
  {
    Truncate(keywords, KeywordsLimit)
  }

  /** The `Response` column of the bot-response list. */
  function ResponsePreview(responseText: string): (r: string)
    ensures |r| <= 53
    ensures |responseText| <= 50 ==> r == responseText
    ensures |responseText| > 50 ==> r == responseText[..50] + "..."
  {
    Truncate(responseText, ResponseLimit)
  }

  /** Previewing a preview changes nothing: a cut text keeps its first `limit` characters. */
  lemma TruncateIdempotent(text: string, limit: nat)
    ensures Truncate(Truncate(text, limit), limit) == Truncate(text, limit)
  {
    if |text| > limit {
      var r := text[..limit] + "...";
      assert r[..limit] == text[..limit];
    }
  }

  /**
    The texts a preview shows unchanged are exactly the short ones and those
    of length `limit + 3` that already end in `...` after their first `limit`
    characters.
   */
  lemma TruncateFixedPoints(text: string, limit: nat)
    ensures Truncate(text, limit) == text <==>
            |text| <= limit || (|text| == limit + 3 && text[limit..] == "...")
  {
    if |text| > limit {
      if |text| == limit + 3 && text[limit..] == "..." {
        assert text == text[..limit] + text[limit..];
      }
      if Truncate(text, limit) == text {
        assert text[limit..] == (text[..limit] + "...")[limit..];
      }
    }
  }
}
