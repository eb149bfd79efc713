/**
 The page controller: the article collection and the loading, error and
 edit-target state, with one atomic transition per handler. The clock,
 the confirmation dialog and `URL.createObjectURL` are parameters.
 */
module AdminNewsPage {
  import opened NewsTypes

  datatype PageState = PageState(
    news: seq<Article>,
    loading: bool,
    error: Option<string>,
    editing: Option<Article>)

  /** The state before the mount effect has run. */
  const Initial := PageState([], true, None, None)

  const SampleImage1 := "https://images.unsplash.com/photo-1540575467063-178a50c2df87?w=400"
  const SampleImage2 := "https://images.unsplash.com/photo-1505373877841-8d25f7d46678?w=400"
  const SampleImage3 := "https://images.unsplash.com/photo-1556742049-0cfed4f6a45d?w=400"

  const SampleDescription1 := "Join us for the biggest technology conference of the year featuring the latest innovations in AI, blockchain, and cloud computing. This event will bring together industry leaders, innovators, and tech enthusiasts from around the world."
  const SampleDescription2 := "We're excited to announce the launch of our revolutionary new product that will change the way you work and communicate with your team members."

  /**
   The built-in two-item sample. Each article reads the clock on its own,
   so the two ISO stamps may differ.
   */
  function SampleNews(iso1: string, iso2: string): (sample: seq<Article>)
    ensures |sample| == 2
    ensures sample[0].id == 1 && sample[1].id == 2
    ensures sample[0].images == [Url(SampleImage1), Url(SampleImage2)]
    ensures sample[1].images == [Url(SampleImage3)]
    ensures sample[0].createdAt == iso1 && sample[1].createdAt == iso2
    ensures forall i :: 0 <= i < |sample| ==> AllUrls(sample[i].images)
  {
    [ Article(1, "Tech Conference 2024 Announced",
              SampleDescription1,
              [Url(SampleImage1), Url(SampleImage2)], iso1),
      Article(2, "New Product Launch",
              SampleDescription2,
              [Url(SampleImage3)], iso2) ]
  }

  /** `fetchNews`: the collection becomes the sample, loading ends, the error is cleared. */
  function FetchNews(p: PageState, iso1: string, iso2: string): (r: PageState)
    ensures r.news == SampleNews(iso1, iso2)
    ensures !r.loading && r.error == None
    ensures r.editing == p.editing
  {
    p.(news := SampleNews(iso1, iso2), loading := false, error := None)
  }

  /** The `images.map` of `handleAddNews`: strings stay, files become object URLs. */
  function ResolveImages(images: seq<ImageRef>, objectUrl: File -> string): (r: seq<ImageRef>)
    ensures |r| == |images| && AllUrls(r)
    ensures forall i :: 0 <= i < |images| && images[i].Url? ==> r[i] == images[i]
    ensures forall i :: 0 <= i < |images| && images[i].Upload? ==> r[i] == Url(objectUrl(images[i].file))
  {
    seq(|images|, i requires 0 <= i < |images| =>
      match images[i]
      case Url(_) => images[i]
      case Upload(f) => Url(objectUrl(f)))
  }

  /** Resolving an already resolved list changes nothing: strings pass through. */
  lemma ResolveIdempotent(images: seq<ImageRef>, objectUrl: File -> string)
    ensures ResolveImages(ResolveImages(images, objectUrl), objectUrl) == ResolveImages(images, objectUrl)
    ensures AllUrls(images) ==> ResolveImages(images, objectUrl) == images
  {
  }

  /** The article `handleAddNews` builds from the submitted data. */
  function NewArticle(data: FormData, clock: Clock, objectUrl: File -> string): (a: Article)
    ensures a.id == clock.millis && a.createdAt == clock.iso
    ensures a.title == data.title && a.description == data.description
    ensures a.images == ResolveImages(data.images, objectUrl)
  {
    Article(clock.millis, data.title, data.description, ResolveImages(data.images, objectUrl), clock.iso)
  }

  /** `handleAddNews`: prepends exactly one article. */
  function AddNews(p: PageState, data: FormData, clock: Clock, objectUrl: File -> string): (r: PageState)
    ensures |r.news| == |p.news| + 1
    ensures r.news[0] == NewArticle(data, clock, objectUrl) && r.news[1..] == p.news
    ensures r.error == None && r.loading == p.loading && r.editing == p.editing
  {
    p.(error := None, news := [NewArticle(data, clock, objectUrl)] + p.news)
  }

  /** The `{ ...item, title, description, images }` of `handleEditNews`, applied when the id matches. */
  function Patch(item: Article, newsId: Id, data: FormData): (r: Article)
    ensures r.id == item.id && r.createdAt == item.createdAt
    ensures item.id != newsId ==> r == item
    ensures item.id == newsId ==> r.title == data.title && r.description == data.description && r.images == data.images
  {
    if item.id == newsId then item.(title := data.title, description := data.description, images := data.images)
    else item
  }

  /** `prev.map(...)` of `handleEditNews`: same length and order, only matching ids are patched. */
  function EditItems(news: seq<Article>, newsId: Id, data: FormData): (r: seq<Article>)
    ensures |r| == |news|
    ensures forall i :: 0 <= i < |news| ==> r[i].id == news[i].id && r[i].createdAt == news[i].createdAt
    ensures forall i :: 0 <= i < |news| && news[i].id != newsId ==> r[i] == news[i]
    ensures forall i :: 0 <= i < |news| && news[i].id == newsId ==>
              r[i].title == data.title && r[i].description == data.description && r[i].images == data.images
  {
    seq(|news|, i requires 0 <= i < |news| => Patch(news[i], newsId, data))
  }

  /** `handleEditNews`: patches the collection and leaves edit mode. */
  function EditNews(p: PageState, data: FormData, newsId: Id): (r: PageState)
    ensures r.news == EditItems(p.news, newsId, data)
    ensures r.editing == None && r.error == None && r.loading == p.loading
  {
    p.(error := None, news := EditItems(p.news, newsId, data), editing := None)
  }

  /** The number of articles carrying `newsId`. */
  function CountId(news: seq<Article>, newsId: Id): nat {
    if |news| == 0 then 0
    else (if news[0].id == newsId then 1 else 0) + CountId(news[1..], newsId)
  }

  /** `prev.filter(item => item.id !== newsId)`. */
  function Without(news: seq<Article>, newsId: Id): (r: seq<Article>)
    ensures |r| + CountId(news, newsId) == |news|
    ensures forall i :: 0 <= i < |r| ==> r[i].id != newsId
    ensures forall a :: a in r ==> a in news
    ensures forall a :: a in news && a.id != newsId ==> a in r
    ensures CountId(news, newsId) == 0 ==> r == news
  {
    if |news| == 0 then []
    else if news[0].id == newsId then Without(news[1..], newsId)
    else [news[0]] + Without(news[1..], newsId)
  }

  /** `handleDeleteNews`: nothing happens unless the user confirms. */
  function DeleteNews(p: PageState, newsId: Id, confirmed: bool): (r: PageState)
    ensures !confirmed ==> r == p
    ensures confirmed ==> r.news == Without(p.news, newsId) && r.error == None
    ensures r.loading == p.loading && r.editing == p.editing
  {
    if !confirmed then p else p.(error := None, news := Without(p.news, newsId))
  }

  /** `handleEditClick`. */
  function StartEdit(p: PageState, article: Article): (r: PageState)
    ensures r.editing == Some(article) && r.news == p.news && r.loading == p.loading && r.error == p.error
  {
    p.(editing := Some(article))
  }

  /** `handleCancelEdit`. */
  function CancelEdit(p: PageState): (r: PageState)
    ensures r.editing == None && r.news == p.news && r.loading == p.loading && r.error == p.error
  {
    p.(editing := None)
  }

  /** JavaScript truthiness of `editingNews?.id`: absent and `0` are falsy. */
  predicate Truthy(newsId: Option<Id>) {
    newsId.Some? && newsId.value != 0
  }

  /** `handleSubmit`: a truthy id routes to edit, anything else to add. */
  function HandleSubmit(p: PageState, data: FormData, newsId: Option<Id>, clock: Clock, objectUrl: File -> string): (r: PageState)
    ensures Truthy(newsId) ==> r == EditNews(p, data, newsId.value)
    ensures !Truthy(newsId) ==> r == AddNews(p, data, clock, objectUrl)
  {
    if Truthy(newsId) then EditNews(p, data, newsId.value) else AddNews(p, data, clock, objectUrl)
  }

  // Lemmas relating the transitions

  /**
   Nothing is stored remotely, so a load discards every local change: after
   an add, a delete or an earlier load the sample comes back as if they had
   not happened, and after an edit only the ended edit mode remains.
   */
  lemma FetchDiscardsChanges(p: PageState, iso1: string, iso2: string, earlier1: string, earlier2: string,
                             data: FormData, newsId: Id, confirmed: bool,
                             clock: Clock, objectUrl: File -> string)
    ensures FetchNews(AddNews(p, data, clock, objectUrl), iso1, iso2) == FetchNews(p, iso1, iso2)
    ensures FetchNews(DeleteNews(p, newsId, confirmed), iso1, iso2) == FetchNews(p, iso1, iso2)
    ensures FetchNews(FetchNews(p, earlier1, earlier2), iso1, iso2) == FetchNews(p, iso1, iso2)
    ensures FetchNews(EditNews(p, data, newsId), iso1, iso2) == FetchNews(CancelEdit(p), iso1, iso2)
  {
  }

  /** Deleting distributes over concatenation: relative order is kept. */
  lemma {:induction false} WithoutConcat(a: seq<Article>, b: seq<Article>, newsId: Id)
    ensures Without(a + b, newsId) == Without(a, newsId) + Without(b, newsId)
    decreases |a|
  {
    if |a| == 0 {
      assert a + b == b;
    } else {
      var ab := a + b;
      assert ab[0] == a[0] && ab[1..] == a[1..] + b;
      WithoutConcat(a[1..], b, newsId);
      var rest, wb := Without(a[1..], newsId), Without(b, newsId);
      if a[0].id != newsId {
        assert [a[0]] + (rest + wb) == ([a[0]] + rest) + wb;
      }
    }
  }

  /** Deleting the same id again changes nothing. */
  lemma WithoutIdempotent(news: seq<Article>, newsId: Id)
    ensures Without(Without(news, newsId), newsId) == Without(news, newsId)
  {
    var r := Without(news, newsId);
    CountIdZero(r, newsId);
  }

  /** No article carries the id exactly when the count is zero. */
  lemma {:induction false} CountIdZero(news: seq<Article>, newsId: Id)
    ensures CountId(news, newsId) == 0 <==> forall i :: 0 <= i < |news| ==> news[i].id != newsId
    decreases |news|
  {
    if |news| > 0 {
      CountIdZero(news[1..], newsId);
      assert forall i :: 1 <= i < |news| ==> news[i] == news[1..][i - 1];
    }
  }

  /** Deleting after editing the same id is deleting before the edit. */
  lemma {:induction false} DeleteAfterEdit(news: seq<Article>, newsId: Id, data: FormData)
    ensures Without(EditItems(news, newsId, data), newsId) == Without(news, newsId)
    decreases |news|
  {
    if |news| > 0 {
      var e := EditItems(news, newsId, data);
      assert e[1..] == EditItems(news[1..], newsId, data);
      DeleteAfterEdit(news[1..], newsId, data);
    }
  }

  /** Editing twice with the same data is editing once. */
  lemma EditIdempotent(news: seq<Article>, newsId: Id, data: FormData)
    ensures EditItems(EditItems(news, newsId, data), newsId, data) == EditItems(news, newsId, data)
  {
  }

  /** Editing an id no article carries leaves the collection as it was. */
  lemma EditAbsentId(news: seq<Article>, newsId: Id, data: FormData)
    requires forall i :: 0 <= i < |news| ==> news[i].id != newsId
    ensures EditItems(news, newsId, data) == news
  {
  }

  /** A run of creates, applied left to right. */
  function AddAll(p: PageState, batch: seq<(FormData, Clock)>, objectUrl: File -> string): PageState
    decreases |batch|
  {
    if |batch| == 0 then p
    else AddAll(AddNews(p, batch[0].0, batch[0].1, objectUrl), batch[1..], objectUrl)
  }

  /** The articles a run of creates builds, oldest first. */
  function Created(batch: seq<(FormData, Clock)>, objectUrl: File -> string): (r: seq<Article>)
    ensures |r| == |batch|
    ensures forall i :: 0 <= i < |batch| ==> r[i] == NewArticle(batch[i].0, batch[i].1, objectUrl)
  {
    seq(|batch|, i requires 0 <= i < |batch| => NewArticle(batch[i].0, batch[i].1, objectUrl))
  }

  function Reverse<T>(s: seq<T>): (r: seq<T>)
    ensures |r| == |s| && forall i :: 0 <= i < |s| ==> r[i] == s[|s| - 1 - i]
  {
    if |s| == 0 then [] else Reverse(s[1..]) + [s[0]]
  }

  /**
   After a run of creates the collection starts with the new articles,
   newest first, followed by the old collection unchanged.
   */
  lemma {:induction false} AddAllPrepends(p: PageState, batch: seq<(FormData, Clock)>, objectUrl: File -> string)
    ensures AddAll(p, batch, objectUrl).news == Reverse(Created(batch, objectUrl)) + p.news
    decreases |batch|
  {
    if |batch| > 0 {
      var p' := AddNews(p, batch[0].0, batch[0].1, objectUrl);
      AddAllPrepends(p', batch[1..], objectUrl);
      var c := Created(batch, objectUrl);
      assert Created(batch[1..], objectUrl) == c[1..];
      assert Reverse(c) == Reverse(c[1..]) + [c[0]];
      assert p'.news == [c[0]] + p.news;
    }
  }
}
