/** The running app: the database held in the fields of one object, the views and ORM operations
    as methods that update those fields in place, and the two post_save receivers as methods
    that the saving methods call. `outbox` records every send_mail call in order. */
module App {
  import opened Models
  import opened Signals
  import opened Views
  import opened Forms

  class NewsApp {
    var users: map<Id, User>
    var publishers: map<Id, Publisher>
    var articles: map<Id, Article>
    var groupNames: set<string>
    var nextArticleId: nat
    var outbox: seq<Mail>

    /** The database as a value. */
    function Db(): State
      reads this
    {
      State(users, publishers, articles, groupNames, nextArticleId)
    }

    ghost predicate Valid()
      reads this
    {
      Consistent(Db())
    }

    constructor ()
      ensures Valid() && Db() == EmptyState && outbox == []
    {
      users, publishers, articles := map[], map[], map[];
      groupNames, nextArticleId, outbox := {}, 1, [];
      EmptyStateConsistent();
    }

    /** Publisher save (admin). */
    method SavePublisher(id: Id, name: string, description: Option<string>) returns (r: Result<()>)
      requires Valid()
      modifies this
      ensures Valid()
      ensures Step(r, Db()) == Models.SavePublisher(old(Db()), id, name, description)
      ensures outbox == old(outbox)
    {
      if !RequiredCharValid(name, MaxCharLength) {
        return Err(ValidationError);
      }
      publishers := publishers[id := Publisher(Strip(name), description)];
      r := Ok(());
    }

    /** CustomUser.save followed, inside the save, by the clear_irrelevant_m2m receiver. */
    method SaveUser(id: Id, role: string, email: string, bio: Option<string>) returns (r: Result<()>)
      requires Valid()
      modifies this
      ensures Valid()
      ensures Step(r, Db()) == Models.SaveUser(old(Db()), id, role, email, bio)
      ensures outbox == old(outbox)
    {
      if role !in RoleChoices {
        return Err(ValidationError);
      }
      ghost var spec := Models.SaveUser(Db(), id, role, email, bio).after;
      var created := id !in users;
      var u := if created then NewUser(role, email, bio)
               else users[id].(role := role, email := email, bio := bio);
      assert spec.users == users[id := Saved(u)] && spec.groupNames == groupNames + {role};
      WriteUserRow(id, u, created);
      groupNames := groupNames + {role};
      assert Db() == spec;
      r := Ok(());
    }

    /** The row part of CustomUser.save: clear a reader's bio, store the row, run the
        clear_irrelevant_m2m receiver, then add the role's group when it is missing. */
    method WriteUserRow(id: Id, u: User, created: bool)
      requires created <==> id !in users
      requires created ==> u.subscribedPublishers == {} && u.subscribedJournalists == {} && u.publishedArticles == {}
      modifies this`users
      ensures users == old(users)[id := Saved(u)]
    {
      var v := if u.role == Reader then u.(bio := None) else u;
      users := users[id := v];
      ClearIrrelevantM2M(id, created);
      assert users[id] == v by {
        if created {
          assert v.subscribedPublishers == {} && v.subscribedJournalists == {} && v.publishedArticles == {};
        }
      }
      if v.role !in v.groups {
        v := v.(groups := v.groups + {v.role});
        users := users[id := v];
      }
    }

    /** The clear_irrelevant_m2m receiver for the user saved under `id`. */
    method ClearIrrelevantM2M(id: Id, created: bool)
      requires id in users
      modifies this`users
      ensures users == old(users)[id := ClearIrrelevant(old(users)[id], created)]
    {
      if created {
        var u := users[id];
        if u.role == Reader {
          users := users[id := u.(publishedArticles := {})];
        } else if u.role == Journalist {
          users := users[id := u.(subscribedPublishers := {}, subscribedJournalists := {})];
        }
      }
    }

    /** Publisher delete, with CASCADE on its articles. */
    method DeletePublisher(p: Id) returns (r: Result<()>)
      requires Valid()
      modifies this
      ensures Valid()
      ensures Step(r, Db()) == Models.DeletePublisher(old(Db()), p)
      ensures outbox == old(outbox)
    {
      if p !in publishers {
        return Err(NotFound);
      }
      var gone := ArticlesOf(articles, p);
      articles := map a | a in articles && articles[a].publisher != p :: articles[a];
      users := map k | k in users :: users[k].(
        subscribedPublishers := users[k].subscribedPublishers - {p},
        publishedArticles := users[k].publishedArticles - gone);
      publishers := publishers - {p};
      r := Ok(());
    }

    /** User delete, with SET_NULL on the articles that name them as journalist. */
    method DeleteUser(uid: Id) returns (r: Result<()>)
      requires Valid()
      modifies this
      ensures Valid()
      ensures Step(r, Db()) == Models.DeleteUser(old(Db()), uid)
      ensures outbox == old(outbox)
    {
      if uid !in users {
        return Err(NotFound);
      }
      articles := map a | a in articles :: articles[a].(
        journalist := if articles[a].journalist == Some(uid) then None else articles[a].journalist);
      users := map k | k in users && k != uid :: users[k].(
        subscribedJournalists := users[k].subscribedJournalists - {uid});
      r := Ok(());
    }

    method SubscribePublisher(caller: Id, p: Id) returns (r: Result<()>)
      requires Valid()
      modifies this
      ensures Valid()
      ensures Step(r, Db()) == Views.SubscribePublisher(old(Db()), caller, p)
      ensures outbox == old(outbox)
    {
      if !(caller in users && IsReader(users[caller])) {
        return Err(Forbidden);
      }
      if p !in publishers {
        return Err(NotFound);
      }
      var u := users[caller];
      users := users[caller := u.(subscribedPublishers := u.subscribedPublishers + {p})];
      r := Ok(());
    }

    method UnsubscribePublisher(caller: Id, p: Id) returns (r: Result<()>)
      requires Valid()
      modifies this
      ensures Valid()
      ensures Step(r, Db()) == Views.UnsubscribePublisher(old(Db()), caller, p)
      ensures outbox == old(outbox)
    {
      if !(caller in users && IsReader(users[caller])) {
        return Err(Forbidden);
      }
      if p !in publishers {
        return Err(NotFound);
      }
      var u := users[caller];
      users := users[caller := u.(subscribedPublishers := u.subscribedPublishers - {p})];
      r := Ok(());
    }

    method FollowJournalist(caller: Id, j: Id) returns (r: Result<()>)
      requires Valid()
      modifies this
      ensures Valid()
      ensures Step(r, Db()) == Views.FollowJournalist(old(Db()), caller, j)
      ensures outbox == old(outbox)
    {
      if !(caller in users && IsReader(users[caller])) {
        return Err(Forbidden);
      }
      if !(j in users && users[j].role == Journalist) {
        return Err(NotFound);
      }
      var u := users[caller];
      users := users[caller := u.(subscribedJournalists := u.subscribedJournalists + {j})];
      r := Ok(());
    }

    method UnfollowJournalist(caller: Id, j: Id) returns (r: Result<()>)
      requires Valid()
      modifies this
      ensures Valid()
      ensures Step(r, Db()) == Views.UnfollowJournalist(old(Db()), caller, j)
      ensures outbox == old(outbox)
    {
      if !(caller in users && IsReader(users[caller])) {
        return Err(Forbidden);
      }
      if !(j in users && users[j].role == Journalist) {
        return Err(NotFound);
      }
      var u := users[caller];
      users := users[caller := u.(subscribedJournalists := u.subscribedJournalists - {j})];
      r := Ok(());
    }

    /** create_article on a POST; the save is an insert, so the post_save receiver sends nothing. */
    method CreateArticle(caller: Id, title: string, content: string, publisher: Id, now: int) returns (r: Result<Id>)
      requires Valid()
      modifies this
      ensures Valid()
      ensures Step(r, Db()) == Views.CreateArticle(old(Db()), caller, title, content, publisher, now)
      ensures outbox == old(outbox)
    {
      if !(caller in users && IsJournalist(users[caller])) {
        return Err(Forbidden);
      }
      if !(RequiredCharValid(title, MaxCharLength) && RequiredTextValid(content) && publisher in publishers) {
        return Err(ValidationError);
      }
      ghost var spec := Views.CreateArticle(Db(), caller, title, content, publisher, now);
      var id := nextArticleId;
      var a := NewArticle(Strip(title), Strip(content), publisher, Some(caller), now);
      assert spec.result == Ok(id) && spec.after == Db().(articles := articles[id := a], nextArticleId := id + 1);
      articles := articles[id := a];
      nextArticleId := nextArticleId + 1;
      assert Db() == spec.after;
      ghost var sent := NotifySubscribersOnApproval(id, true);
      r := Ok(id);
    }

    /** approve_article; the save is an update of an approved article, so its audience is mailed,
        also when the article was approved already. */
    method ApproveArticle(caller: Id, id: Id) returns (r: Result<()>, ghost notified: seq<Id>)
      requires Valid()
      modifies this
      ensures Valid()
      ensures Step(r, Db()) == Views.ApproveArticle(old(Db()), caller, id)
      ensures r.Ok? ==>
        && IsEnumeration(notified, Recipients(users, articles[id]))
        && outbox == old(outbox) + Messages(notified, articles[id], users)
      ensures r.Err? ==> outbox == old(outbox)
    {
      notified := [];
      if !(caller in users && IsEditor(users[caller])) {
        r := Err(Forbidden);
        return;
      }
      if id !in articles {
        r := Err(NotFound);
        return;
      }
      articles := articles[id := articles[id].(isApproved := true)];
      notified := NotifySubscribersOnApproval(id, false);
      r := Ok(());
    }

    /** The notify_subscribers_on_approval receiver for the article saved under `id`: on an update
        of an approved article, one mail to each subscriber of its publisher and each follower of
        its journalist, visited in `sent` order. A failed send is ignored, so the receiver changes
        nothing but the outbox. */
    method NotifySubscribersOnApproval(id: Id, created: bool) returns (ghost sent: seq<Id>)
      requires id in articles
      modifies this`outbox
      ensures !created && articles[id].isApproved ==>
        && IsEnumeration(sent, Recipients(users, articles[id]))
        && outbox == old(outbox) + Messages(sent, articles[id], users)
      ensures created || !articles[id].isApproved ==> outbox == old(outbox)
    {
      sent := [];
      var a := articles[id];
      if !created && a.isApproved {
        var subs := Subscribers(users, a.publisher);
        if a.journalist.Some? {
          subs := subs + Followers(users, a.journalist.value);
        }
        assert subs == Recipients(users, a);
        sent := SendEach(a, users, subs);
      }
    }

    /** The send loop of the receiver: one send_mail per element of `subs`, in the order the
        set is visited, which is returned as `sent`. */
    method SendEach(a: Article, people: map<Id, User>, subs: set<Id>) returns (ghost sent: seq<Id>)
      requires subs <= people.Keys
      modifies this`outbox
      ensures IsEnumeration(sent, subs)
      ensures outbox == old(outbox) + Messages(sent, a, people)
    {
      sent := [];
      var todo := subs;
      while todo != {}
        invariant todo <= subs
        invariant IsEnumeration(sent, subs - todo)
        invariant forall i :: 0 <= i < |sent| ==> sent[i] in people
        invariant outbox == old(outbox) + Messages(sent, a, people)
        decreases todo
      {
        var u :| u in todo;
        assert u in people;
        forall i | 0 <= i < |sent + [u]| ensures (sent + [u])[i] in people {
          if i < |sent| { assert (sent + [u])[i] == sent[i]; }
        }
        MessagesAppend(sent, u, a, people);
        EnumerationExtend(sent, subs - todo, u);
        var m := Message(a, people[u].email);
        assert old(outbox) + Messages(sent, a, people) + [m] == old(outbox) + Messages(sent + [u], a, people);
        outbox := outbox + [m];
        sent := sent + [u];
        assert subs - todo + {u} == subs - (todo - {u}) by {
          forall x ensures x in subs - todo + {u} <==> x in subs - (todo - {u}) {
          }
        }
        todo := todo - {u};
      }
      assert subs - todo == subs;
    }
  }

  /** A listing with no duplicates whose only member is `x` is `[x]`. */
  lemma SingletonListing(r: seq<Id>, x: Id)
    requires NoDuplicates(r) && forall a :: a in r <==> a == x
    ensures r == [x]
  {
    forall i | 0 <= i < |r| ensures r[i] in {x} {
      assert r[i] in r;
    }
    EnumerationSize(r, {x});
  }

  /** The row a save writes for a user id not yet in the table: the given role and e-mail, the bio
      unless the role is reader, no relations, and just the role's group. */
  lemma InsertedUser(s: State, id: Id, role: string, email: string, bio: Option<string>)
    requires id !in s.users && role in RoleChoices
    ensures Models.SaveUser(s, id, role, email, bio).after.users ==
      s.users[id := User(role, email, if role == Reader then None else bio, {}, {}, {}, {role})]
  {
  }

  /** The scenario's form input has no surrounding whitespace and no NUL, so the forms accept it
      and store it unchanged. */
  lemma TechNewsInputIsClean()
    ensures RequiredCharValid("Tech News", MaxCharLength) && Strip("Tech News") == "Tech News"
    ensures RequiredCharValid("Breaking", MaxCharLength) && Strip("Breaking") == "Breaking"
    ensures RequiredTextValid("Content") && Strip("Content") == "Content"
  {
    TrimmedIsAccepted("Tech News", MaxCharLength);
    TrimmedIsAccepted("Breaking", MaxCharLength);
    TrimmedIsAccepted("Content", MaxCharLength);
  }

  /** Publisher 1 "Tech News", journalist 2, editor 3, reader 4 without subscriptions, and
      article 1 "Breaking" by journalist 2, not yet approved. */
  method SetUpTechNews() returns (app: NewsApp)
    ensures fresh(app) && app.Valid() && app.outbox == []
    ensures app.publishers == map[1 := Publisher("Tech News", None)]
    ensures app.users == map[
      2 := User(Journalist, "journalist@example.com", Some("bio"), {}, {}, {}, {Journalist}),
      3 := User(Editor, "editor@example.com", None, {}, {}, {}, {Editor}),
      4 := User(Reader, "reader@example.com", None, {}, {}, {}, {Reader})]
    ensures app.articles == map[1 := Article("Breaking", "Content", 1, Some(2), false, 100)]
  {
    app := new NewsApp();
    TechNewsInputIsClean();
    var ok := app.SavePublisher(1, "Tech News", None);
    assert app.publishers == map[1 := Publisher("Tech News", None)];
    ghost var d := app.Db();
    ok := app.SaveUser(2, Journalist, "journalist@example.com", Some("bio"));
    InsertedUser(d, 2, Journalist, "journalist@example.com", Some("bio"));
    d := app.Db();
    ok := app.SaveUser(3, Editor, "editor@example.com", None);
    InsertedUser(d, 3, Editor, "editor@example.com", None);
    d := app.Db();
    ok := app.SaveUser(4, Reader, "reader@example.com", None);
    InsertedUser(d, 4, Reader, "reader@example.com", None);
    assert app.nextArticleId == 1 && app.articles == map[];
    assert JournalistCaller(app.Db(), 2) && ArticleFormValid(app.Db(), "Breaking", "Content", 1);
    var created := app.CreateArticle(2, "Breaking", "Content", 1, 100);
  }

  /** Nobody subscribes or follows: approving "Breaking" mails nobody, and the reader's
      dashboard is empty. */
  method ApproveWithoutAudience() returns (app: NewsApp)
    ensures fresh(app) && app.Valid() && app.outbox == []
    ensures app.users == map[
      2 := User(Journalist, "journalist@example.com", Some("bio"), {}, {}, {}, {Journalist}),
      3 := User(Editor, "editor@example.com", None, {}, {}, {}, {Editor}),
      4 := User(Reader, "reader@example.com", None, {}, {}, {}, {Reader})]
    ensures app.publishers == map[1 := Publisher("Tech News", None)]
    ensures app.articles == map[1 := Article("Breaking", "Content", 1, Some(2), true, 100)]
    ensures ReaderDashboard(app.Db(), 4) == Ok([])
  {
    app := SetUpTechNews();
    var approved, notified := app.ApproveArticle(3, 1);
    assert Recipients(app.users, app.articles[1]) == {} by {
      forall u | u in app.users ensures app.articles[1].publisher !in app.users[u].subscribedPublishers
        && app.articles[1].journalist.value !in app.users[u].subscribedJournalists {
        assert u == 2 || u == 3 || u == 4;
      }
    }
    EnumerationSize(notified, {});
  }

  /** After subscribing to "Tech News" the reader's dashboard lists exactly "Breaking". */
  method SubscribeToTechNews() returns (app: NewsApp)
    ensures fresh(app) && app.Valid() && app.outbox == []
    ensures app.users == map[
      2 := User(Journalist, "journalist@example.com", Some("bio"), {}, {}, {}, {Journalist}),
      3 := User(Editor, "editor@example.com", None, {}, {}, {}, {Editor}),
      4 := User(Reader, "reader@example.com", None, {1}, {}, {}, {Reader})]
    ensures app.articles == map[1 := Article("Breaking", "Content", 1, Some(2), true, 100)]
    ensures ReaderDashboard(app.Db(), 4) == Ok([1])
  {
    app := ApproveWithoutAudience();
    var ok := app.SubscribePublisher(4, 1);
    assert {} + {1} == {1};
    assert app.users[4] == User(Reader, "reader@example.com", None, {1}, {}, {}, {Reader});
    var feed := ReaderDashboard(app.Db(), 4);
    assert InReaderFeed(app.articles, app.users[4], 1);
    SingletonListing(feed.value, 1);
  }

  /** With reader 4 subscribed to publisher 1 and nobody following journalist 2, the audience of
      "Breaking" is reader 4 alone, and mailing it is the one expected mail. */
  lemma TechNewsAudience(users: map<Id, User>, a: Article)
    requires users == map[
      2 := User(Journalist, "journalist@example.com", Some("bio"), {}, {}, {}, {Journalist}),
      3 := User(Editor, "editor@example.com", None, {}, {}, {}, {Editor}),
      4 := User(Reader, "reader@example.com", None, {1}, {}, {}, {Reader})]
    requires a == Article("Breaking", "Content", 1, Some(2), true, 100)
    ensures Recipients(users, a) == {4}
    ensures Messages([4], a, users) ==
      [Mail("New Article: Breaking", "Content", "noreply@newsapp.com", ["reader@example.com"])]
  {
    forall u | u in users && u != 4
      ensures a.publisher !in users[u].subscribedPublishers && a.journalist.value !in users[u].subscribedJournalists
    {
      assert u == 2 || u == 3;
    }
    assert SubjectPrefix + "Breaking" == "New Article: Breaking";
  }

  /** Approving "Breaking" again, although it is approved already, now that the reader subscribes:
      no row changes and the reader is mailed once. */
  method TechNewsScenario() returns (app: NewsApp)
    ensures fresh(app) && app.Valid()
    ensures app.articles == map[1 := Article("Breaking", "Content", 1, Some(2), true, 100)]
    ensures app.outbox == [Mail("New Article: Breaking", "Content", "noreply@newsapp.com", ["reader@example.com"])]
  {
    app := SubscribeToTechNews();
    ghost var people := app.users;
    ghost var before := app.articles;
    var approved, notified := app.ApproveArticle(3, 1);
    assert approved.Ok?;
    assert app.users == people;
    assert app.articles == before;
    TechNewsAudience(app.users, app.articles[1]);
    assert forall x :: x in notified <==> x == 4;
    SingletonListing(notified, 4);
  }
}
