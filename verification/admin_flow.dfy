/**
 The page, its form and its list wired together as the page renders them:
 each user action is one atomic step of the whole app. After a step that
 changes the page's edit target, the form's seeding effect runs with the
 new target.
 */
module AdminFlow {
  import opened NewsTypes
  import JsString
  import NewsCard
  import NewsList
  import NewsForm
  import Page = AdminNewsPage

  datatype App = App(page: Page.PageState, form: NewsForm.FormState)

  /**
   What the user can do on the page. Card clicks name the card by position.
   `Mount` is the page's mount effect; it may fire again at any point of a
   run, which over-approximates the single load the page makes.
   */
  datatype Event =
    | Mount(iso1: string, iso2: string)
    | ClickCard(index: int, button: NewsCard.Button, confirmed: bool)
    | Type(field: NewsForm.Field, value: string)
    | PickImages(selection: seq<File>)
    | RemovePreview(index: int)
    | Submit(clock: Clock)
    | CancelClick

  const Initial := App(Page.Initial, NewsForm.Initial)

  /**
   The `useEffect` on `editingNews`: it runs only when the edit target
   changed, and then seeds the form from a new target or leaves it alone
   when the target went away.
   */
  function Sync(before: Option<Article>, app: App): (r: App)
    ensures r.page == app.page && r.form.submitting == app.form.submitting
    ensures app.page.editing == before || app.page.editing.None? ==> r == app
    ensures app.page.editing != before && app.page.editing.Some? ==>
              var a := app.page.editing.value;
              && r.form.data == FormData(a.title, a.description, a.images)
              && r.form.previews == a.images && r.form.files == []
  {
    if app.page.editing != before then app.(form := NewsForm.Seed(app.form, app.page.editing)) else app
  }

  /** The cards are on screen only when the list renders its grid. */
  predicate CardShown(app: App, index: int) {
    && NewsList.Render(Some(app.page.news), app.page.loading).Grid?
    && 0 <= index < |app.page.news|
  }

  /**
   Submit: the form validates and calls the page's `handleSubmit`, which
   completes without throwing; the form then finishes with the edit target
   it saw when the click happened.
   */
  function SubmitStep(app: App, clock: Clock, objectUrl: File -> string): (r: App)
    ensures JsString.Blank(app.form.data.title) || JsString.Blank(app.form.data.description) ==> r == app
    ensures !JsString.Blank(app.form.data.title) && !JsString.Blank(app.form.data.description) ==> !r.form.submitting
  {
    var editing := app.page.editing;
    var sub := NewsForm.BeginSubmit(app.form, editing);
    match sub.call
    case None => app
    case Some(call) =>
      var page := Page.HandleSubmit(app.page, call.data, call.id, clock, objectUrl);
      Sync(editing, App(page, NewsForm.FinishSubmit(sub.state, editing, true)))
  }

  /** One user action. `objectUrl` and `read` stand for the browser's URL and FileReader services. */
  function Step(app: App, e: Event, objectUrl: File -> string, read: File -> string): (r: App)
    ensures !app.form.submitting ==> !r.form.submitting
    ensures e.Type? || e.PickImages? || e.RemovePreview? ==> r.page == app.page
  {
    match e
    case Mount(iso1, iso2) => app.(page := Page.FetchNews(app.page, iso1, iso2))
    case ClickCard(index, button, confirmed) =>
      if !CardShown(app, index) then app
      else (
        match NewsCard.Click(app.page.news[index], button)
        case OnEdit(a) => Sync(app.page.editing, app.(page := Page.StartEdit(app.page, a)))
        case OnDelete(id) => app.(page := Page.DeleteNews(app.page, id, confirmed)))
    case Type(field, value) => app.(form := NewsForm.ChangeInput(app.form, field, value))
    case PickImages(selection) => app.(form := NewsForm.ChangeImages(app.form, selection, read))
    case RemovePreview(index) => app.(form := NewsForm.RemoveImage(app.form, index))
    case Submit(clock) => SubmitStep(app, clock, objectUrl)
    case CancelClick =>
      if app.page.editing.None? then app
      else Sync(app.page.editing, App(Page.CancelEdit(app.page), NewsForm.Cancel(app.form)))
  }

  /** A run of user actions from left to right. */
  function Run(app: App, events: seq<Event>, objectUrl: File -> string, read: File -> string): App
    decreases |events|
  {
    if |events| == 0 then app
    else Run(Step(app, events[0], objectUrl, read), events[1..], objectUrl, read)
  }

  /** Every stored image is a string. */
  predicate StoredUrls(news: seq<Article>) {
    forall i :: 0 <= i < |news| ==> AllUrls(news[i].images)
  }

  /**
   Between actions the form is idle, and every image anywhere in the app
   (collection, edit target, draft, previews) is a string URL.
   */
  predicate Inv(app: App) {
    && !app.form.submitting
    && StoredUrls(app.page.news)
    && (app.page.editing.Some? ==> AllUrls(app.page.editing.value.images))
    && AllUrls(app.form.data.images)
    && AllUrls(app.form.previews)
  }

  lemma InitialInv()
    ensures Inv(Initial)
  {
  }

  /** Every action keeps the invariant. */
  lemma StepPreservesInv(app: App, e: Event, objectUrl: File -> string, read: File -> string)
    requires Inv(app)
    ensures Inv(Step(app, e, objectUrl, read))
  {
    match e
    case Mount(iso1, iso2) =>
      assert StoredUrls(Page.SampleNews(iso1, iso2));
    case ClickCard(index, button, confirmed) =>
      ClickKeepsInv(app, index, button, confirmed, objectUrl, read);
    case Type(_, _) =>
    case PickImages(_) =>
    case RemovePreview(_) =>
    case Submit(clock) =>
      SubmitClick(app, clock, objectUrl, read);
      SubmitKeepsInv(app, clock, objectUrl);
    case CancelClick =>
  }

  lemma ClickKeepsInv(app: App, index: int, button: NewsCard.Button, confirmed: bool,
                      objectUrl: File -> string, read: File -> string)
    requires Inv(app)
    ensures Inv(Step(app, ClickCard(index, button, confirmed), objectUrl, read))
  {
    if CardShown(app, index) {
      var a := app.page.news[index];
      assert AllUrls(a.images);
      if button == NewsCard.DeleteButton && confirmed {
        var kept := Page.Without(app.page.news, a.id);
        forall i | 0 <= i < |kept|
          ensures AllUrls(kept[i].images)
        {
          assert kept[i] in app.page.news;
        }
      }
    }
  }

  lemma SubmitKeepsInv(app: App, clock: Clock, objectUrl: File -> string)
    requires Inv(app)
    ensures Inv(SubmitStep(app, clock, objectUrl))
  {
    var editing := app.page.editing;
    var sub := NewsForm.BeginSubmit(app.form, editing);
    if sub.call.Some? {
      var call := sub.call.value;
      assert call.id.Some? ==> AllUrls(call.data.images);
      HandleSubmitKeepsUrls(app.page, call.data, call.id, clock, objectUrl);
    }
  }

  /** The page's submit handler stores only strings when an edit brings only strings. */
  lemma HandleSubmitKeepsUrls(p: Page.PageState, data: FormData, newsId: Option<Id>, clock: Clock, objectUrl: File -> string)
    requires StoredUrls(p.news) && (p.editing.Some? ==> AllUrls(p.editing.value.images))
    requires newsId.Some? ==> AllUrls(data.images)
    ensures var r := Page.HandleSubmit(p, data, newsId, clock, objectUrl);
            StoredUrls(r.news) && (r.editing.Some? ==> AllUrls(r.editing.value.images))
  {
    if Page.Truthy(newsId) {
      var edited := Page.EditItems(p.news, newsId.value, data);
      forall i | 0 <= i < |edited|
        ensures AllUrls(edited[i].images)
      {
        if p.news[i].id != newsId.value {
          assert edited[i] == p.news[i];
        }
      }
    } else {
      var added := Page.AddNews(p, data, clock, objectUrl).news;
      forall i | 0 <= i < |added|
        ensures AllUrls(added[i].images)
      {
        if i > 0 {
          assert added[i] == p.news[i - 1];
        }
      }
    }
  }

  /** Every state reachable from a state satisfying the invariant satisfies it. */
  lemma {:induction false} RunPreservesInv(app: App, events: seq<Event>, objectUrl: File -> string, read: File -> string)
    requires Inv(app)
    ensures Inv(Run(app, events, objectUrl, read))
    decreases |events|
  {
    if |events| > 0 {
      StepPreservesInv(app, events[0], objectUrl, read);
      RunPreservesInv(Step(app, events[0], objectUrl, read), events[1..], objectUrl, read);
    }
  }

  /** In every reachable state, each card on screen gets a string image source. */
  lemma ReachableCardsShowUrls(events: seq<Event>, objectUrl: File -> string, read: File -> string)
    ensures var app := Run(Initial, events, objectUrl, read);
            var v := NewsList.Render(Some(app.page.news), app.page.loading);
            v.Grid? ==> forall i :: 0 <= i < |v.cards| ==> v.cards[i].image.Url?
  {
    RunPreservesInv(Initial, events, objectUrl, read);
    var app := Run(Initial, events, objectUrl, read);
    var v := NewsList.Render(Some(app.page.news), app.page.loading);
    if v.Grid? {
      forall i | 0 <= i < |v.cards|
        ensures v.cards[i].image.Url?
      {
        assert AllUrls(app.page.news[i].images);
      }
    }
  }

  /** A blank title or description blocks the submit: nothing at all changes. */
  lemma BlankSubmitChangesNothing(app: App, clock: Clock, objectUrl: File -> string, read: File -> string)
    requires JsString.Blank(app.form.data.title) || JsString.Blank(app.form.data.description)
    ensures Step(app, Submit(clock), objectUrl, read) == app
  {
  }

  /** A submit click is handled by `SubmitStep`. */
  lemma SubmitClick(app: App, clock: Clock, objectUrl: File -> string, read: File -> string)
    ensures Step(app, Submit(clock), objectUrl, read) == SubmitStep(app, clock, objectUrl)
  {
  }

  /** The call a valid submit makes and the state it leaves, spelled out. */
  lemma ValidSubmit(app: App, clock: Clock, objectUrl: File -> string)
    requires !JsString.Blank(app.form.data.title) && !JsString.Blank(app.form.data.description)
    ensures var editing := app.page.editing;
            var data := app.form.data.(images := NewsForm.PayloadImages(app.form, editing));
            var id := if editing.Some? then Some(editing.value.id) else None;
            var page := Page.HandleSubmit(app.page, data, id, clock, objectUrl);
            var form := NewsForm.FinishSubmit(app.form.(submitting := true), editing, true);
            SubmitStep(app, clock, objectUrl) == Sync(editing, App(page, form))
  {
    var sub := NewsForm.BeginSubmit(app.form, app.page.editing);
    assert sub.call.Some?;
  }

  /**
   A valid create prepends one article built from the draft, turns each
   picked file into an object URL in order, and clears the form.
   */
  lemma CreateFlow(app: App, clock: Clock, objectUrl: File -> string, read: File -> string)
    requires app.page.editing.None?
    requires !JsString.Blank(app.form.data.title) && !JsString.Blank(app.form.data.description)
    ensures var r := Step(app, Submit(clock), objectUrl, read);
            && |r.page.news| == |app.page.news| + 1
            && r.page.news[1..] == app.page.news
            && r.page.news[0].id == clock.millis
            && r.page.news[0].title == app.form.data.title
            && r.page.news[0].description == app.form.data.description
            && |r.page.news[0].images| == |app.form.files|
            && (forall i :: 0 <= i < |app.form.files| ==> r.page.news[0].images[i] == Url(objectUrl(app.form.files[i])))
            && NewsForm.Cleared(r.form) && !r.form.submitting
            && r.page.editing.None?
  {
    ValidSubmit(app, clock, objectUrl);
    SubmitClick(app, clock, objectUrl, read);
    var data := app.form.data.(images := Uploads(app.form.files));
    var page := Page.AddNews(app.page, data, clock, objectUrl);
    assert SubmitStep(app, clock, objectUrl) == App(page, NewsForm.Initial);
  }

  /**
   A valid edit of an article with a non-zero id patches the collection in
   place and ends edit mode, but the form keeps the edited draft: the
   seeding effect ignores the new, empty edit target.
   */
  lemma EditFlow(app: App, clock: Clock, objectUrl: File -> string, read: File -> string)
    requires app.page.editing.Some? && app.page.editing.value.id != 0
    requires !JsString.Blank(app.form.data.title) && !JsString.Blank(app.form.data.description)
    ensures var r := Step(app, Submit(clock), objectUrl, read);
            var id := app.page.editing.value.id;
            && r.page.news == Page.EditItems(app.page.news, id, app.form.data.(images := app.form.previews))
            && r.page.editing.None?
            && r.form == app.form.(submitting := false)
  {
    ValidSubmit(app, clock, objectUrl);
    SubmitClick(app, clock, objectUrl, read);
    var id := app.page.editing.value.id;
    var page := Page.EditNews(app.page, app.form.data.(images := app.form.previews), id);
    assert SubmitStep(app, clock, objectUrl) == App(page, app.form.(submitting := false));
  }

  /**
   `0` is a falsy id: submitting an edit of an article whose id is 0 adds a
   new article holding the previews, and edit mode stays on.
   */
  lemma ZeroIdEditAdds(app: App, clock: Clock, objectUrl: File -> string, read: File -> string)
    requires app.page.editing.Some? && app.page.editing.value.id == 0
    requires AllUrls(app.form.previews)
    requires !JsString.Blank(app.form.data.title) && !JsString.Blank(app.form.data.description)
    ensures var r := Step(app, Submit(clock), objectUrl, read);
            && |r.page.news| == |app.page.news| + 1
            && r.page.news[1..] == app.page.news
            && r.page.news[0].images == app.form.previews
            && r.page.editing == app.page.editing
            && r.form == app.form.(submitting := false)
  {
    ValidSubmit(app, clock, objectUrl);
    SubmitClick(app, clock, objectUrl, read);
    var data := app.form.data.(images := app.form.previews);
    var page := Page.AddNews(app.page, data, clock, objectUrl);
    assert Page.ResolveImages(app.form.previews, objectUrl) == app.form.previews;
    assert SubmitStep(app, clock, objectUrl) == App(page, app.form.(submitting := false));
  }

  /** No two articles share an id; the page itself never checks this. */
  predicate UniqueIds(news: seq<Article>) {
    forall i, j :: 0 <= i < j < |news| ==> news[i].id != news[j].id
  }

  /**
   Seeding the form from an article and submitting it untouched writes the
   article back as it was, provided ids are unique.
   */
  lemma UntouchedEditIsNoOp(app: App, index: int, clock: Clock, objectUrl: File -> string, read: File -> string)
    requires 0 <= index < |app.page.news| && UniqueIds(app.page.news)
    requires app.page.editing == Some(app.page.news[index]) && app.page.news[index].id != 0
    requires app.form == NewsForm.Seed(NewsForm.Initial, app.page.editing)
    requires !JsString.Blank(app.form.data.title) && !JsString.Blank(app.form.data.description)
    ensures Step(app, Submit(clock), objectUrl, read).page.news == app.page.news
  {
    var a := app.page.news[index];
    EditFlow(app, clock, objectUrl, read);
    assert app.form.data.(images := app.form.previews) == FormData(a.title, a.description, a.images);
    WriteBackIsNoOp(app.page.news, index);
  }

  /** Patching an article with its own fields changes nothing when ids are unique. */
  lemma WriteBackIsNoOp(news: seq<Article>, index: int)
    requires 0 <= index < |news| && UniqueIds(news)
    ensures var a := news[index];
            Page.EditItems(news, a.id, FormData(a.title, a.description, a.images)) == news
  {
    var a := news[index];
    var edited := Page.EditItems(news, a.id, FormData(a.title, a.description, a.images));
    forall i | 0 <= i < |edited|
      ensures edited[i] == news[i]
    {
      if i != index {
        assert news[i].id != a.id;
      }
    }
  }

  /** Clicking a card's Edit targets that article and seeds the form from it, if it was not the target already. */
  lemma EditClickSeeds(app: App, index: int, objectUrl: File -> string, read: File -> string)
    requires CardShown(app, index)
    ensures var r := Step(app, ClickCard(index, NewsCard.EditButton, false), objectUrl, read);
            var a := app.page.news[index];
            && r.page.editing == Some(a)
            && r.page.news == app.page.news
            && (app.page.editing != Some(a) ==>
                  r.form.data == FormData(a.title, a.description, a.images)
                  && r.form.previews == a.images && r.form.files == [])
            && (app.page.editing == Some(a) ==> r.form == app.form)
  {
  }

  /**
   A confirmed delete from a card removes every article with that card's
   id and nothing else; a declined one changes nothing.
   */
  lemma DeleteClick(app: App, index: int, confirmed: bool, objectUrl: File -> string, read: File -> string)
    requires CardShown(app, index)
    ensures var r := Step(app, ClickCard(index, NewsCard.DeleteButton, confirmed), objectUrl, read);
            var id := app.page.news[index].id;
            && (!confirmed ==> r == app)
            && (confirmed ==>
                  && |r.page.news| < |app.page.news|
                  && (forall a :: a in r.page.news ==> a in app.page.news && a.id != id)
                  && (forall a :: a in app.page.news && a.id != id ==> a in r.page.news)
                  && r.form == app.form)
  {
    if confirmed {
      var id := app.page.news[index].id;
      var kept := Page.Without(app.page.news, id);
      Page.CountIdZero(app.page.news, id);
      forall a | a in kept
        ensures a.id != id
      {
        var j :| 0 <= j < |kept| && kept[j] == a;
      }
    }
  }

  /** Cancel empties the form and ends edit mode; the effect then leaves the empty form alone. */
  lemma CancelFlow(app: App, objectUrl: File -> string, read: File -> string)
    requires app.page.editing.Some?
    ensures var r := Step(app, CancelClick, objectUrl, read);
            && NewsForm.Cleared(r.form)
            && r.page.editing.None?
            && r.page.news == app.page.news
  {
  }

  /** Mounting shows the two sample cards, newest sample first. */
  lemma MountShowsSample(app: App, iso1: string, iso2: string, objectUrl: File -> string, read: File -> string)
    ensures var r := Step(app, Mount(iso1, iso2), objectUrl, read);
            var v := NewsList.Render(Some(r.page.news), r.page.loading);
            && v.Grid? && v.count == 2
            && v.cards[0].key == 1 && v.cards[1].key == 2
            && v.cards[0].image == Url(Page.SampleImage1)
  {
  }
}
