/** The views of news_app/views.py, by their effect on the state and their outcome: the role
    tests, the role-based redirect, the three dashboards and the six state-changing views.
    Rendering and redirects are replaced by `Result` values. */
module Views {
  import opened Models
  import opened Signals
  import opened Forms

  predicate IsReader(u: User) { u.role == Reader }
  predicate IsJournalist(u: User) { u.role == Journalist }
  predicate IsEditor(u: User) { u.role == Editor }

  /** The three role tests cover exactly the role choices, and at most one of them holds. */
  lemma RoleTestsPartitionChoices(u: User)
    ensures (IsReader(u) || IsJournalist(u) || IsEditor(u)) <==> u.role in RoleChoices
    ensures !(IsReader(u) && IsJournalist(u))
    ensures !(IsReader(u) && IsEditor(u))
    ensures !(IsJournalist(u) && IsEditor(u))
  {
  }

  /** The gate of login_required with user_passes_test: a known user who passes the role test. */
  predicate ReaderCaller(s: State, caller: Id) { caller in s.users && IsReader(s.users[caller]) }
  predicate JournalistCaller(s: State, caller: Id) { caller in s.users && IsJournalist(s.users[caller]) }
  predicate EditorCaller(s: State, caller: Id) { caller in s.users && IsEditor(s.users[caller]) }

  datatype Page = ReaderDashboardPage | JournalistDashboardPage | EditorDashboardPage | LoginPage

  /** redirect_dashboard: the dashboard of the user's role; no role, or any other role, goes to login. */
  function RedirectDashboard(role: Option<string>): (p: Page)
    ensures p == ReaderDashboardPage <==> role == Some(Reader)
    ensures p == JournalistDashboardPage <==> role == Some(Journalist)
    ensures p == EditorDashboardPage <==> role == Some(Editor)
    ensures p == LoginPage <==> role.None? || role.value !in RoleChoices
  {
    if role == Some(Reader) then ReaderDashboardPage
    else if role == Some(Journalist) then JournalistDashboardPage
    else if role == Some(Editor) then EditorDashboardPage
    else LoginPage
  }

  // ---------------------------------------------------------------------------------------
  // Ordering by -created_at

  /** `a` may be listed before `b` newest first; equal timestamps fall back to the primary key. */
  predicate Precedes(articles: map<Id, Article>, a: Id, b: Id) {
    && a in articles && b in articles
    && (articles[a].createdAt > articles[b].createdAt ||
        (articles[a].createdAt == articles[b].createdAt && a <= b))
  }

  /** Every non-empty set of articles has a first one in that order. */
  lemma {:induction false} NewestExists(ids: set<Id>, articles: map<Id, Article>)
    requires ids != {} && ids <= articles.Keys
    ensures exists m :: m in ids && forall k :: k in ids ==> Precedes(articles, m, k)
    decreases |ids|
  {
    var x :| x in ids;
    var rest := ids - {x};
    if rest == {} {
      assert ids == {x};
    } else {
      NewestExists(rest, articles);
      var m :| m in rest && forall k :: k in rest ==> Precedes(articles, m, k);
      if Precedes(articles, x, m) {
        forall k | k in ids ensures Precedes(articles, x, k) {
          if k != x { assert k in rest; assert Precedes(articles, m, k); }
        }
      } else {
        forall k | k in ids ensures Precedes(articles, m, k) {
          if k != x { assert k in rest; }
        }
      }
    }
  }

  /** The article listed first: it precedes every other one of the set. */
  function Newest(ids: set<Id>, articles: map<Id, Article>): (m: Id)
    requires ids != {} && ids <= articles.Keys
    ensures m in ids && forall k :: k in ids ==> Precedes(articles, m, k)
  {
    NewestExists(ids, articles);
    var m :| m in ids && forall k :: k in ids ==> Precedes(articles, m, k);
    m
  }

  /** Articles listed newest first. */
  ghost predicate IsNewestFirst(articles: map<Id, Article>, r: seq<Id>) {
    && (forall i :: 0 <= i < |r| ==> r[i] in articles)
    && (forall i, j :: 0 <= i < j < |r| ==> articles[r[i]].createdAt >= articles[r[j]].createdAt)
  }

  /** Putting the first article in front of a newest-first listing of the others lists the whole set newest first. */
  lemma PrependNewest(ids: set<Id>, articles: map<Id, Article>, m: Id, rest: seq<Id>)
    requires m in ids && forall k :: k in ids ==> Precedes(articles, m, k)
    requires IsEnumeration(rest, ids - {m}) && IsNewestFirst(articles, rest)
    ensures IsEnumeration([m] + rest, ids) && IsNewestFirst(articles, [m] + rest)
  {
    var r := [m] + rest;
    forall i, j | 0 <= i < j < |r| ensures r[i] != r[j] && articles[r[i]].createdAt >= articles[r[j]].createdAt {
      if i == 0 {
        assert r[j] == rest[j - 1] && r[j] in ids - {m};
        assert Precedes(articles, m, r[j]);
      } else {
        assert r[i] == rest[i - 1] && r[j] == rest[j - 1];
      }
    }
    forall x | x in ids ensures x in r {
      if x != m { assert x in ids - {m}; assert x in rest; }
    }
  }

  /** order_by('-created_at') of a set of articles: every article of the set once, newest first. */
  function NewestFirst(ids: set<Id>, articles: map<Id, Article>): (r: seq<Id>)
    requires ids <= articles.Keys
    ensures IsEnumeration(r, ids)
    ensures IsNewestFirst(articles, r)
    decreases |ids|
  {
    if ids == {} then []
    else
      var m := Newest(ids, articles);
      var rest := NewestFirst(ids - {m}, articles);
      PrependNewest(ids, articles, m, rest);
      [m] + rest
  }

  // ---------------------------------------------------------------------------------------
  // Dashboards

  /** The filter of reader_dashboard: approved, and by a subscribed publisher or a followed journalist. */
  predicate InReaderFeed(articles: map<Id, Article>, u: User, a: Id) {
    && a in articles
    && articles[a].isApproved
    && (articles[a].publisher in u.subscribedPublishers ||
        (articles[a].journalist.Some? && articles[a].journalist.value in u.subscribedJournalists))
  }

  function ReaderDashboard(s: State, caller: Id): (r: Result<seq<Id>>)
    ensures r.Err? <==> !ReaderCaller(s, caller)
    ensures r.Err? ==> r.error == Forbidden
    ensures r.Ok? ==> forall a :: a in r.value <==> InReaderFeed(s.articles, s.users[caller], a)
    ensures r.Ok? ==> NoDuplicates(r.value) && IsNewestFirst(s.articles, r.value)
  {
    if !ReaderCaller(s, caller) then Err(Forbidden)
    else
      var u := s.users[caller];
      Ok(NewestFirst((set a | a in s.articles && InReaderFeed(s.articles, u, a)), s.articles))
  }

  /** journalist_dashboard: the caller's own articles, approved or not. */
  function JournalistDashboard(s: State, caller: Id): (r: Result<seq<Id>>)
    ensures r.Err? <==> !JournalistCaller(s, caller)
    ensures r.Err? ==> r.error == Forbidden
    ensures r.Ok? ==> forall a :: a in r.value <==> a in s.articles && s.articles[a].journalist == Some(caller)
    ensures r.Ok? ==> NoDuplicates(r.value) && IsNewestFirst(s.articles, r.value)
  {
    if !JournalistCaller(s, caller) then Err(Forbidden)
    else Ok(NewestFirst((set a | a in s.articles && s.articles[a].journalist == Some(caller)), s.articles))
  }

  /** editor_dashboard: every article still awaiting approval. */
  function EditorDashboard(s: State, caller: Id): (r: Result<seq<Id>>)
    ensures r.Err? <==> !EditorCaller(s, caller)
    ensures r.Err? ==> r.error == Forbidden
    ensures r.Ok? ==> forall a :: a in r.value <==> a in s.articles && !s.articles[a].isApproved
    ensures r.Ok? ==> NoDuplicates(r.value) && IsNewestFirst(s.articles, r.value)
  {
    if !EditorCaller(s, caller) then Err(Forbidden)
    else Ok(NewestFirst((set a | a in s.articles && !s.articles[a].isApproved), s.articles))
  }

  /** redirect_dashboard sends every stored user to the one dashboard whose role test they pass. */
  lemma RedirectLeadsToPermittedDashboard(s: State, caller: Id)
    requires Consistent(s) && caller in s.users
    ensures var page := RedirectDashboard(Some(s.users[caller].role));
      && page != LoginPage
      && (page == ReaderDashboardPage <==> ReaderDashboard(s, caller).Ok?)
      && (page == JournalistDashboardPage <==> JournalistDashboard(s, caller).Ok?)
      && (page == EditorDashboardPage <==> EditorDashboard(s, caller).Ok?)
  {
    assert UserConsistent(s, s.users[caller]);
  }

  // ---------------------------------------------------------------------------------------
  // State-changing views

  /** `t` differs from `s` at most in the row of user `caller`. */
  ghost predicate OnlyUserChanged(s: State, t: State, caller: Id) {
    && caller in s.users
    && t == s.(users := t.users)
    && t.users.Keys == s.users.Keys
    && (forall k :: k in s.users && k != caller ==> t.users[k] == s.users[k])
  }

  /** subscribe_publisher: a reader adds an existing publisher to their subscriptions. */
  function SubscribePublisher(s: State, caller: Id, p: Id): (st: Step<()>)
    ensures st.result == Err(Forbidden) <==> !ReaderCaller(s, caller)
    ensures st.result == Err(NotFound) <==> ReaderCaller(s, caller) && p !in s.publishers
    ensures st.result.Err? ==> st.after == s
    ensures st.result.Ok? ==>
      && OnlyUserChanged(s, st.after, caller)
      && st.after.users[caller] == s.users[caller].(
           subscribedPublishers := s.users[caller].subscribedPublishers + {p})
    ensures Consistent(s) ==> Consistent(st.after)
  {
    if !ReaderCaller(s, caller) then Step(Err(Forbidden), s)
    else if p !in s.publishers then Step(Err(NotFound), s)
    else
      var u := s.users[caller];
      var u' := u.(subscribedPublishers := u.subscribedPublishers + {p});
      assert Consistent(s) ==> Consistent(s.(users := s.users[caller := u'])) by {
        if Consistent(s) {
          assert UserConsistent(s, u);
          ReplaceUserKeepsConsistent(s, caller, u');
        }
      }
      Step(Ok(()), s.(users := s.users[caller := u']))
  }

  /** unsubscribe_publisher: a reader removes an existing publisher from their subscriptions. */
  function UnsubscribePublisher(s: State, caller: Id, p: Id): (st: Step<()>)
    ensures st.result == Err(Forbidden) <==> !ReaderCaller(s, caller)
    ensures st.result == Err(NotFound) <==> ReaderCaller(s, caller) && p !in s.publishers
    ensures st.result.Err? ==> st.after == s
    ensures st.result.Ok? ==>
      && OnlyUserChanged(s, st.after, caller)
      && st.after.users[caller] == s.users[caller].(
           subscribedPublishers := s.users[caller].subscribedPublishers - {p})
    ensures Consistent(s) ==> Consistent(st.after)
  {
    if !ReaderCaller(s, caller) then Step(Err(Forbidden), s)
    else if p !in s.publishers then Step(Err(NotFound), s)
    else
      var u := s.users[caller];
      var u' := u.(subscribedPublishers := u.subscribedPublishers - {p});
      assert Consistent(s) ==> Consistent(s.(users := s.users[caller := u'])) by {
        if Consistent(s) {
          assert UserConsistent(s, u);
          ReplaceUserKeepsConsistent(s, caller, u');
        }
      }
      Step(Ok(()), s.(users := s.users[caller := u']))
  }

  /** The lookup of follow_journalist and unfollow_journalist: an existing user whose role is journalist. */
  predicate JournalistTarget(s: State, j: Id) { j in s.users && IsJournalist(s.users[j]) }

  /** follow_journalist: a reader adds a journalist to the journalists they follow. */
  function FollowJournalist(s: State, caller: Id, j: Id): (st: Step<()>)
    ensures st.result == Err(Forbidden) <==> !ReaderCaller(s, caller)
    ensures st.result == Err(NotFound) <==> ReaderCaller(s, caller) && !JournalistTarget(s, j)
    ensures st.result.Err? ==> st.after == s
    ensures st.result.Ok? ==>
      && OnlyUserChanged(s, st.after, caller)
      && st.after.users[caller] == s.users[caller].(
           subscribedJournalists := s.users[caller].subscribedJournalists + {j})
    ensures Consistent(s) ==> Consistent(st.after)
  {
    if !ReaderCaller(s, caller) then Step(Err(Forbidden), s)
    else if !JournalistTarget(s, j) then Step(Err(NotFound), s)
    else
      var u := s.users[caller];
      var u' := u.(subscribedJournalists := u.subscribedJournalists + {j});
      assert Consistent(s) ==> Consistent(s.(users := s.users[caller := u'])) by {
        if Consistent(s) {
          assert UserConsistent(s, u);
          ReplaceUserKeepsConsistent(s, caller, u');
        }
      }
      Step(Ok(()), s.(users := s.users[caller := u']))
  }

  /** unfollow_journalist: a reader removes a journalist from the journalists they follow. */
  function UnfollowJournalist(s: State, caller: Id, j: Id): (st: Step<()>)
    ensures st.result == Err(Forbidden) <==> !ReaderCaller(s, caller)
    ensures st.result == Err(NotFound) <==> ReaderCaller(s, caller) && !JournalistTarget(s, j)
    ensures st.result.Err? ==> st.after == s
    ensures st.result.Ok? ==>
      && OnlyUserChanged(s, st.after, caller)
      && st.after.users[caller] == s.users[caller].(
           subscribedJournalists := s.users[caller].subscribedJournalists - {j})
    ensures Consistent(s) ==> Consistent(st.after)
  {
    if !ReaderCaller(s, caller) then Step(Err(Forbidden), s)
    else if !JournalistTarget(s, j) then Step(Err(NotFound), s)
    else
      var u := s.users[caller];
      var u' := u.(subscribedJournalists := u.subscribedJournalists - {j});
      assert Consistent(s) ==> Consistent(s.(users := s.users[caller := u'])) by {
        if Consistent(s) {
          assert UserConsistent(s, u);
          ReplaceUserKeepsConsistent(s, caller, u');
        }
      }
      Step(Ok(()), s.(users := s.users[caller := u']))
  }

  /** ArticleForm: title a required CharField of at most 255 characters, content a required
      TextField, both judged after the form strips them; publisher an existing one. */
  predicate ArticleFormValid(s: State, title: string, content: string, publisher: Id) {
    && RequiredCharValid(title, MaxCharLength)
    && RequiredTextValid(content)
    && publisher in s.publishers
  }

  /** create_article (valid POST): one new unapproved article by the caller, created at `now`,
      under the next primary key. The users, including the caller's published articles, are untouched. */
  function CreateArticle(s: State, caller: Id, title: string, content: string, publisher: Id, now: int): (st: Step<Id>)
    ensures st.result == Err(Forbidden) <==> !JournalistCaller(s, caller)
    ensures st.result == Err(ValidationError) <==>
      JournalistCaller(s, caller) && !ArticleFormValid(s, title, content, publisher)
    ensures st.result.Err? ==> st.after == s
    ensures st.result.Ok? ==>
      var id := st.result.value;
      && id == s.nextArticleId
      && st.after.articles == s.articles[id := Article(Strip(title), Strip(content), publisher, Some(caller), false, now)]
      && st.after == s.(articles := st.after.articles, nextArticleId := id + 1)
    ensures Consistent(s) && st.result.Ok? ==> st.result.value !in s.articles
    ensures Consistent(s) ==> Consistent(st.after)
  {
    if !JournalistCaller(s, caller) then Step(Err(Forbidden), s)
    else if !ArticleFormValid(s, title, content, publisher) then Step(Err(ValidationError), s)
    else
      var id := s.nextArticleId;
      var t := s.(articles := s.articles[id := NewArticle(Strip(title), Strip(content), publisher, Some(caller), now)],
                  nextArticleId := id + 1);
      assert Consistent(s) ==> Consistent(t) by {
        if Consistent(s) {
          forall k | k in t.users ensures UserConsistent(t, t.users[k]) {
            assert UserConsistent(s, s.users[k]);
          }
          forall k | k in t.articles ensures ArticleConsistent(t, k, t.articles[k]) {
            if k != id { assert ArticleConsistent(s, k, s.articles[k]); }
          }
        }
      }
      Step(Ok(id), t)
  }

  /** approve_article: an editor sets the approval flag of an existing article; no other row changes. */
  function ApproveArticle(s: State, caller: Id, id: Id): (st: Step<()>)
    ensures st.result == Err(Forbidden) <==> !EditorCaller(s, caller)
    ensures st.result == Err(NotFound) <==> EditorCaller(s, caller) && id !in s.articles
    ensures st.result.Err? ==> st.after == s
    ensures st.result.Ok? ==>
      && id in s.articles
      && st.after == s.(articles := st.after.articles)
      && st.after.articles.Keys == s.articles.Keys
      && st.after.articles[id] == s.articles[id].(isApproved := true)
      && (forall k :: k in s.articles && k != id ==> st.after.articles[k] == s.articles[k])
    ensures Consistent(s) ==> Consistent(st.after)
  {
    if !EditorCaller(s, caller) then Step(Err(Forbidden), s)
    else if id !in s.articles then Step(Err(NotFound), s)
    else
      var t := s.(articles := s.articles[id := s.articles[id].(isApproved := true)]);
      assert Consistent(s) ==> Consistent(t) by {
        if Consistent(s) {
          forall k | k in t.users ensures UserConsistent(t, t.users[k]) {
            assert UserConsistent(s, s.users[k]);
          }
          forall k | k in t.articles ensures ArticleConsistent(t, k, t.articles[k]) {
            assert ArticleConsistent(s, k, s.articles[k]);
          }
        }
      }
      Step(Ok(()), t)
  }

  // ---------------------------------------------------------------------------------------
  // Properties of the subscription views

  lemma SubscribeIdempotent(s: State, caller: Id, p: Id)
    ensures var once := SubscribePublisher(s, caller, p);
      SubscribePublisher(once.after, caller, p) == once
  {
  }

  lemma UnsubscribeIdempotent(s: State, caller: Id, p: Id)
    ensures var once := UnsubscribePublisher(s, caller, p);
      UnsubscribePublisher(once.after, caller, p) == once
  {
    if ReaderCaller(s, caller) && p in s.publishers {
      var ps := s.users[caller].subscribedPublishers;
      assert ps - {p} - {p} == ps - {p};
    }
  }

  lemma FollowIdempotent(s: State, caller: Id, j: Id)
    ensures var once := FollowJournalist(s, caller, j);
      FollowJournalist(once.after, caller, j) == once
  {
  }

  lemma UnfollowIdempotent(s: State, caller: Id, j: Id)
    ensures var once := UnfollowJournalist(s, caller, j);
      UnfollowJournalist(once.after, caller, j) == once
  {
    if ReaderCaller(s, caller) && JournalistTarget(s, j) {
      var js := s.users[caller].subscribedJournalists;
      assert js - {j} - {j} == js - {j};
    }
  }

  /** Removing a subscription or a follow that is not there succeeds and changes nothing. */
  lemma RemovingAbsentEdgeIsNoOp(s: State, caller: Id, x: Id)
    requires ReaderCaller(s, caller)
    ensures x in s.publishers && x !in s.users[caller].subscribedPublishers ==>
      UnsubscribePublisher(s, caller, x) == Step(Ok(()), s)
    ensures JournalistTarget(s, x) && x !in s.users[caller].subscribedJournalists ==>
      UnfollowJournalist(s, caller, x) == Step(Ok(()), s)
  {
    var u := s.users[caller];
    if x in s.publishers && x !in u.subscribedPublishers {
      assert u.(subscribedPublishers := u.subscribedPublishers - {x}) == u;
      assert s.(users := s.users[caller := u]) == s;
    }
    if JournalistTarget(s, x) && x !in u.subscribedJournalists {
      assert u.(subscribedJournalists := u.subscribedJournalists - {x}) == u;
      assert s.(users := s.users[caller := u]) == s;
    }
  }

  /** Following is one-way: the followed journalist's own follows do not change. */
  lemma FollowIsAsymmetric(s: State, caller: Id, j: Id)
    requires FollowJournalist(s, caller, j).result.Ok?
    ensures var t := FollowJournalist(s, caller, j).after;
      caller != j && t.users[j].subscribedJournalists == s.users[j].subscribedJournalists
  {
  }

  /** After subscribing to a publisher, the reader's dashboard shows every approved article of it. */
  lemma SubscribeShowsPublisherArticles(s: State, caller: Id, p: Id, a: Id)
    requires SubscribePublisher(s, caller, p).result.Ok?
    requires a in s.articles && s.articles[a].publisher == p && s.articles[a].isApproved
    ensures var d := ReaderDashboard(SubscribePublisher(s, caller, p).after, caller);
      d.Ok? && a in d.value
  {
    var t := SubscribePublisher(s, caller, p).after;
    assert InReaderFeed(t.articles, t.users[caller], a);
  }

  /** After unsubscribing from a publisher, its articles leave the reader's dashboard unless
      they are by a journalist the reader follows. */
  lemma UnsubscribeHidesPublisherArticles(s: State, caller: Id, p: Id, a: Id)
    requires UnsubscribePublisher(s, caller, p).result.Ok?
    requires a in s.articles && s.articles[a].publisher == p
    requires !(s.articles[a].journalist.Some? &&
               s.articles[a].journalist.value in s.users[caller].subscribedJournalists)
    ensures var d := ReaderDashboard(UnsubscribePublisher(s, caller, p).after, caller);
      d.Ok? && a !in d.value
  {
    var t := UnsubscribePublisher(s, caller, p).after;
    assert !InReaderFeed(t.articles, t.users[caller], a);
  }

  /** Approving an article that is already approved succeeds and leaves the state as it was
      (the post_save receiver still mails its audience again). */
  lemma ReapprovalChangesNoRow(s: State, caller: Id, id: Id)
    requires EditorCaller(s, caller) && id in s.articles && s.articles[id].isApproved
    ensures ApproveArticle(s, caller, id) == Step(Ok(()), s)
  {
    assert s.articles[id].(isApproved := true) == s.articles[id];
    assert s.articles[id := s.articles[id]] == s.articles;
  }

  // ---------------------------------------------------------------------------------------
  // Every exposed operation, and approval monotonicity

  datatype Request =
    | SubscribePublisherRequest(caller: Id, publisher: Id)
    | UnsubscribePublisherRequest(caller: Id, publisher: Id)
    | FollowJournalistRequest(caller: Id, journalist: Id)
    | UnfollowJournalistRequest(caller: Id, journalist: Id)
    | CreateArticleRequest(caller: Id, title: string, content: string, publisher: Id, now: int)
    | ApproveArticleRequest(caller: Id, article: Id)
    | SaveUserRequest(user: Id, role: string, email: string, bio: Option<string>)
    | SavePublisherRequest(publisher: Id, name: string, description: Option<string>)
    | DeletePublisherRequest(publisher: Id)
    | DeleteUserRequest(user: Id)

  function Apply(s: State, req: Request): State {
    match req
    case SubscribePublisherRequest(c, p) => SubscribePublisher(s, c, p).after
    case UnsubscribePublisherRequest(c, p) => UnsubscribePublisher(s, c, p).after
    case FollowJournalistRequest(c, j) => FollowJournalist(s, c, j).after
    case UnfollowJournalistRequest(c, j) => UnfollowJournalist(s, c, j).after
    case CreateArticleRequest(c, title, content, p, now) => CreateArticle(s, c, title, content, p, now).after
    case ApproveArticleRequest(c, a) => ApproveArticle(s, c, a).after
    case SaveUserRequest(u, role, email, bio) => SaveUser(s, u, role, email, bio).after
    case SavePublisherRequest(p, name, description) => SavePublisher(s, p, name, description).after
    case DeletePublisherRequest(p) => DeletePublisher(s, p).after
    case DeleteUserRequest(u) => DeleteUser(s, u).after
  }

  function Run(s: State, reqs: seq<Request>): State
    decreases |reqs|
  {
    if reqs == [] then s else Run(Apply(s, reqs[0]), reqs[1..])
  }

  /** Article `a` has been handed out and, while it exists, is approved. */
  ghost predicate StaysApproved(s: State, a: Id) {
    a < s.nextArticleId && (a in s.articles ==> s.articles[a].isApproved)
  }

  lemma ApplyKeepsApproved(s: State, req: Request, a: Id)
    requires StaysApproved(s, a)
    ensures StaysApproved(Apply(s, req), a)
  {
  }

  lemma {:induction false} RunKeepsApproved(s: State, reqs: seq<Request>, a: Id)
    requires StaysApproved(s, a)
    ensures StaysApproved(Run(s, reqs), a)
    decreases |reqs|
  {
    if reqs != [] {
      ApplyKeepsApproved(s, reqs[0], a);
      RunKeepsApproved(Apply(s, reqs[0]), reqs[1..], a);
    }
  }

  /** No sequence of the modelled requests turns an approved article back into an unapproved one. */
  lemma ApprovalIsMonotone(s: State, reqs: seq<Request>, a: Id)
    requires Consistent(s) && a in s.articles && s.articles[a].isApproved
    ensures a in Run(s, reqs).articles ==> Run(s, reqs).articles[a].isApproved
  {
    assert ArticleConsistent(s, a, s.articles[a]);
    RunKeepsApproved(s, reqs, a);
  }

  /** Every operation keeps the state consistent. */
  lemma {:induction false} RunKeepsConsistent(s: State, reqs: seq<Request>)
    requires Consistent(s)
    ensures Consistent(Run(s, reqs))
    decreases |reqs|
  {
    if reqs != [] {
      RunKeepsConsistent(Apply(s, reqs[0]), reqs[1..]);
    }
  }
}
