/**
 The list of articles: a loader, an empty notice, or a counted grid of
 cards in collection order.
 */
module NewsList {
  import opened NewsTypes
  import NewsCard

  /** The three mutually exclusive things the list can render. */
  datatype View = Loader | EmptyState | Grid(count: nat, cards: seq<NewsCard.Card>)

  /** One card per article, in the collection's order. */
  function Cards(news: seq<Article>): (cards: seq<NewsCard.Card>)
    ensures |cards| == |news|
    ensures forall i :: 0 <= i < |news| ==> cards[i] == NewsCard.Render(news[i])
  {
    seq(|news|, i requires 0 <= i < |news| => NewsCard.Render(news[i]))
  }

  /**
   `news` is `None` when the prop is missing. Loading wins over everything;
   otherwise a missing or empty collection gives the empty notice.
   */
  function Render(news: Option<seq<Article>>, loading: bool): (v: View)
    ensures loading ==> v == Loader
    ensures !loading && (news.None? || |news.value| == 0) ==> v == EmptyState
    ensures v.Grid? <==> !loading && news.Some? && |news.value| > 0
    ensures v.Grid? ==> v.count == |news.value| == |v.cards|
    ensures v.Grid? ==> forall i :: 0 <= i < |v.cards| ==> v.cards[i] == NewsCard.Render(news.value[i])
  {
    if loading then Loader
    else if news.None? || |news.value| == 0 then EmptyState
    else Grid(|news.value|, Cards(news.value))
  }

  /** The grid's React keys are the article ids, in collection order. */
  lemma GridKeysAreIds(news: seq<Article>)
    requires |news| > 0
    ensures Render(Some(news), false).Grid?
    ensures forall i :: 0 <= i < |news| ==> Render(Some(news), false).cards[i].key == news[i].id
  {
  }
}
