/**
 The summary card of one article: the picture it shows, its shortened
 description, and what its two buttons hand to the page.
 */
module NewsCard {
  import opened NewsTypes

  /** Descriptions longer than this many characters are cut. */
  const DescriptionLimit: nat := 100
  const Ellipsis := "..."
  const Placeholder := "https://via.placeholder.com/300x200?text=No+Image"

  /** What the card renders: React key, image source, alt text, heading and summary. */
  datatype Card = Card(key: Id, image: ImageRef, alt: string, title: string, summary: string)

  /** What a click on one of the card's buttons passes upwards. */
  datatype Callback = OnEdit(article: Article) | OnDelete(id: Id)

  datatype Button = EditButton | DeleteButton

  function Min(a: int, b: int): int { if a <= b then a else b }

  /**
   The description as the card shows it: unchanged up to the limit,
   otherwise its first hundred characters followed by an ellipsis.
   */
  function Summary(description: string): (shown: string)
    ensures |shown| == if |description| > DescriptionLimit then DescriptionLimit + |Ellipsis| else |description|
    ensures |shown| <= |description| || |shown| == DescriptionLimit + |Ellipsis|
    ensures shown[..Min(|shown|, DescriptionLimit)] == description[..Min(|description|, DescriptionLimit)]
    ensures |description| <= DescriptionLimit ==> shown == description
    ensures |description| > DescriptionLimit ==> shown[DescriptionLimit..] == Ellipsis
  {
    if |description| > DescriptionLimit then description[..DescriptionLimit] + Ellipsis else description
  }

  /**
   A summary is never longer than the limit plus the ellipsis, and it
   starts with the description's first characters.
   */
  lemma SummaryBounded(description: string)
    ensures |Summary(description)| <= DescriptionLimit + |Ellipsis|
    ensures description[..Min(|description|, DescriptionLimit)] <= Summary(description)
  {
  }

  /** Shortening a summary again changes nothing. */
  lemma SummaryIdempotent(description: string)
    ensures Summary(Summary(description)) == Summary(description)
  {
    if |description| > DescriptionLimit {
      var s := Summary(description);
      assert s[..DescriptionLimit] == description[..DescriptionLimit];
    }
  }

  /** Two long descriptions that agree on their first hundred characters look the same. */
  lemma SummaryOnlySeesPrefix(d1: string, d2: string)
    requires |d1| > DescriptionLimit && |d2| > DescriptionLimit
    requires d1[..DescriptionLimit] == d2[..DescriptionLimit]
    ensures Summary(d1) == Summary(d2)
  {
    assert Summary(d1)[..DescriptionLimit] == Summary(d2)[..DescriptionLimit];
    assert Summary(d1)[DescriptionLimit..] == Summary(d2)[DescriptionLimit..];
    assert Summary(d1) == Summary(d1)[..DescriptionLimit] + Summary(d1)[DescriptionLimit..];
    assert Summary(d2) == Summary(d2)[..DescriptionLimit] + Summary(d2)[DescriptionLimit..];
  }

  /** The first image when there is one, the placeholder otherwise. */
  function PrimaryImage(article: Article): (src: ImageRef)
    ensures src in article.images || src == Url(Placeholder)
    ensures |article.images| > 0 ==> src == article.images[0]
    ensures |article.images| == 0 ==> src == Url(Placeholder)
  {
    if |article.images| > 0 then article.images[0] else Url(Placeholder)
  }

  /** The image finally on screen: the `onError` handler swaps in the placeholder. */
  function ShownImage(article: Article, loadFailed: bool): (src: ImageRef)
    ensures loadFailed ==> src == Url(Placeholder)
    ensures !loadFailed ==> src == PrimaryImage(article)
    ensures src in article.images || src == Url(Placeholder)
  {
    if loadFailed then Url(Placeholder) else PrimaryImage(article)
  }

  function Render(article: Article): (card: Card)
    ensures card.key == article.id && card.title == article.title && card.alt == article.title
    ensures card.image == PrimaryImage(article)
    ensures card.summary == Summary(article.description)
  {
    Card(article.id, PrimaryImage(article), article.title, article.title, Summary(article.description))
  }

  /** Edit hands over the whole article, delete only its id. */
  function Click(article: Article, button: Button): (cb: Callback)
    ensures cb.OnEdit? <==> button == EditButton
    ensures cb.OnEdit? ==> cb.article == article
    ensures cb.OnDelete? ==> cb.id == article.id
  {
    match button
    case EditButton => OnEdit(article)
    case DeleteButton => OnDelete(article.id)
  }
}
