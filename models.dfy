/** The entities of the news app (news_app/models.py) and the relational state that holds them.
    A `State` is a snapshot of the four tables and of the many-to-many relations; every
    operation of the app is a `Step` from one snapshot to the next. */
module Models {
  import opened Forms

  type Id = nat

  datatype Option<+T> = None | Some(value: T)

  /** How a request can fail: a missing row (404), a failed role test, a form or model validation error. */
  datatype Error = NotFound | Forbidden | ValidationError

  datatype Result<+T> = Ok(value: T) | Err(error: Error)

  const Reader: string := "reader"
  const Editor: string := "editor"
  const Journalist: string := "journalist"

  /** The stored values of ROLE_CHOICES (the labels are display text only). */
  const RoleChoices: set<string> := {Reader, Editor, Journalist}

  /** The max_length of Publisher.name and Article.title. */
  const MaxCharLength: nat := 255

  datatype Publisher = Publisher(name: string, description: Option<string>)

  /** A CustomUser row together with its many-to-many relations.
      `groups` holds the names of the auth groups the user belongs to. */
  datatype User = User(
    role: string,
    email: string,
    bio: Option<string>,
    subscribedPublishers: set<Id>,
    subscribedJournalists: set<Id>,
    publishedArticles: set<Id>,
    groups: set<string>)

  /** An Article row; `createdAt` stands for the timestamp, only its order matters. */
  datatype Article = Article(
    title: string,
    content: string,
    publisher: Id,
    journalist: Option<Id>,
    isApproved: bool,
    createdAt: int)

  /** One call of send_mail. */
  datatype Mail = Mail(subject: string, message: string, fromEmail: string, recipientList: seq<string>)

  /** The database: users, publishers, articles, the names of existing auth groups, and the
      next primary key the article table will hand out. */
  datatype State = State(
    users: map<Id, User>,
    publishers: map<Id, Publisher>,
    articles: map<Id, Article>,
    groupNames: set<string>,
    nextArticleId: nat)

  /** The outcome of one operation and the state it leaves behind. */
  datatype Step<+T> = Step(result: Result<T>, after: State)

  const EmptyState: State := State(map[], map[], map[], {}, 1)

  /** What a stored user satisfies: a role from ROLE_CHOICES, no bio for a reader, membership
      of the group named after the role, and relations that point at existing rows. */
  ghost predicate UserConsistent(s: State, u: User) {
    && u.role in RoleChoices
    && (u.role == Reader ==> u.bio == None)
    && u.role in u.groups
    && u.groups <= s.groupNames
    && u.subscribedPublishers <= s.publishers.Keys
    && u.subscribedJournalists <= s.users.Keys
    && u.publishedArticles <= s.articles.Keys
  }

  /** Every article has an existing publisher, a journalist that is null or an existing user,
      and a primary key below the next one to be handed out. */
  ghost predicate ArticleConsistent(s: State, id: Id, a: Article) {
    && id < s.nextArticleId
    && a.publisher in s.publishers
    && (a.journalist.Some? ==> a.journalist.value in s.users)
  }

  ghost predicate Consistent(s: State) {
    && (forall id :: id in s.users ==> UserConsistent(s, s.users[id]))
    && (forall id :: id in s.articles ==> ArticleConsistent(s, id, s.articles[id]))
  }

  /** Replacing a user's row by one that is itself consistent keeps the state consistent. */
  lemma ReplaceUserKeepsConsistent(s: State, id: Id, u: User)
    requires Consistent(s) && id in s.users && UserConsistent(s, u)
    ensures Consistent(s.(users := s.users[id := u]))
  {
    var t := s.(users := s.users[id := u]);
    forall k | k in t.users ensures UserConsistent(t, t.users[k]) {
      assert UserConsistent(s, s.users[k]);
    }
    forall k | k in t.articles ensures ArticleConsistent(t, k, t.articles[k]) {
      assert ArticleConsistent(s, k, s.articles[k]);
    }
  }

  lemma EmptyStateConsistent()
    ensures Consistent(EmptyState)
  {
  }

  /** The field defaults of a new Article: not approved. */
  function NewArticle(title: string, content: string, publisher: Id, journalist: Option<Id>, now: int): Article {
    Article(title, content, publisher, journalist, false, now)
  }

  /** A freshly inserted user: no relations and no groups yet. */
  function NewUser(role: string, email: string, bio: Option<string>): User {
    User(role, email, bio, {}, {}, {}, {})
  }

  /** CustomUser.save: a reader's bio is cleared, any other bio is kept, and the user ends up
      in the group named after the role (added only when absent). */
  function Saved(u: User): (r: User)
    ensures r.bio == (if u.role == Reader then None else u.bio)
    ensures r.groups == u.groups + {u.role}
    ensures r == u.(bio := r.bio, groups := r.groups)
  {
    var cleared := if u.role == Reader then u.(bio := None) else u;
    if cleared.role in cleared.groups then cleared
    else cleared.(groups := cleared.groups + {cleared.role})
  }

  /** Saving twice is saving once. */
  lemma SavedIdempotent(u: User)
    ensures Saved(Saved(u)) == Saved(u)
  {
  }

  /** Save of a user with primary key `id`: an update when the row exists, an insert otherwise.
      The role must be one of ROLE_CHOICES. The group named after the role is created if
      missing. The post_save receiver of signals.py is not part of this step. */
  function SaveUser(s: State, id: Id, role: string, email: string, bio: Option<string>): (st: Step<()>)
    ensures st.result.Err? <==> role !in RoleChoices
    ensures st.result.Err? ==> st.result.error == ValidationError && st.after == s
    ensures st.result.Ok? ==>
      && st.after == s.(users := st.after.users, groupNames := s.groupNames + {role})
      && st.after.users.Keys == s.users.Keys + {id}
      && (forall k :: k in s.users && k != id ==> st.after.users[k] == s.users[k])
    ensures st.result.Ok? ==>
      var u := st.after.users[id];
      && u.role == role && u.email == email
      && u.bio == (if role == Reader then None else bio)
      && (id in s.users ==>
            && u.subscribedPublishers == s.users[id].subscribedPublishers
            && u.subscribedJournalists == s.users[id].subscribedJournalists
            && u.publishedArticles == s.users[id].publishedArticles
            && u.groups == s.users[id].groups + {role})
      && (id !in s.users ==>
            u.subscribedPublishers == {} && u.subscribedJournalists == {} &&
            u.publishedArticles == {} && u.groups == {role})
    ensures Consistent(s) ==> Consistent(st.after)
  {
    if role !in RoleChoices then Step(Err(ValidationError), s)
    else
      var base := if id in s.users then s.users[id].(role := role, email := email, bio := bio)
                  else NewUser(role, email, bio);
      var t := s.(users := s.users[id := Saved(base)], groupNames := s.groupNames + {role});
      assert Consistent(s) ==> Consistent(t) by {
        if Consistent(s) {
          forall k | k in t.users ensures UserConsistent(t, t.users[k]) {
            if k != id { assert UserConsistent(s, s.users[k]); }
          }
          forall k | k in t.articles ensures ArticleConsistent(t, k, t.articles[k]) {
            assert ArticleConsistent(s, k, s.articles[k]);
          }
        }
      }
      Step(Ok(()), t)
  }

  /** Save of a publisher with primary key `id` through the admin's form: the name is a required
      CharField(max_length=255), stored as the form cleans it. */
  function SavePublisher(s: State, id: Id, name: string, description: Option<string>): (st: Step<()>)
    ensures st.result.Err? <==> !RequiredCharValid(name, MaxCharLength)
    ensures st.result.Err? ==> st.result.error == ValidationError && st.after == s
    ensures st.result.Ok? ==>
      st.after == s.(publishers := s.publishers[id := Publisher(Strip(name), description)])
    ensures Consistent(s) ==> Consistent(st.after)
  {
    if !RequiredCharValid(name, MaxCharLength) then Step(Err(ValidationError), s)
    else
      var t := s.(publishers := s.publishers[id := Publisher(Strip(name), description)]);
      assert Consistent(s) ==> Consistent(t) by {
        if Consistent(s) {
          forall k | k in t.users ensures UserConsistent(t, t.users[k]) {
            assert UserConsistent(s, s.users[k]);
          }
          forall k | k in t.articles ensures ArticleConsistent(t, k, t.articles[k]) {
            assert ArticleConsistent(s, k, s.articles[k]);
          }
        }
      }
      Step(Ok(()), t)
  }

  /** The articles of publisher `p`: the ones on_delete=CASCADE removes with it. */
  function ArticlesOf(articles: map<Id, Article>, p: Id): set<Id> {
    set a | a in articles && articles[a].publisher == p
  }

  /** Deleting a publisher deletes its articles (CASCADE) and the relation rows that point at
      the publisher or at those articles; nothing else changes. */
  function DeletePublisher(s: State, p: Id): (st: Step<()>)
    ensures st.result.Err? <==> p !in s.publishers
    ensures st.result.Err? ==> st.result.error == NotFound && st.after == s
    ensures st.result.Ok? ==>
      && st.after.publishers == s.publishers - {p}
      && st.after.groupNames == s.groupNames && st.after.nextArticleId == s.nextArticleId
      && (forall a :: a in st.after.articles <==> a in s.articles && s.articles[a].publisher != p)
      && (forall a :: a in st.after.articles ==> st.after.articles[a] == s.articles[a])
      && st.after.users.Keys == s.users.Keys
      && (forall k :: k in s.users ==>
            st.after.users[k] == s.users[k].(
              subscribedPublishers := s.users[k].subscribedPublishers - {p},
              publishedArticles := s.users[k].publishedArticles - ArticlesOf(s.articles, p)))
    ensures Consistent(s) ==> Consistent(st.after)
  {
    if p !in s.publishers then Step(Err(NotFound), s)
    else
      var gone := ArticlesOf(s.articles, p);
      var t := State(
        map k | k in s.users :: s.users[k].(
          subscribedPublishers := s.users[k].subscribedPublishers - {p},
          publishedArticles := s.users[k].publishedArticles - gone),
        s.publishers - {p},
        map a | a in s.articles && s.articles[a].publisher != p :: s.articles[a],
        s.groupNames,
        s.nextArticleId);
      assert Consistent(s) ==> Consistent(t) by {
        if Consistent(s) {
          forall k | k in t.users ensures UserConsistent(t, t.users[k]) {
            assert UserConsistent(s, s.users[k]);
          }
          forall k | k in t.articles ensures ArticleConsistent(t, k, t.articles[k]) {
            assert ArticleConsistent(s, k, s.articles[k]);
          }
        }
      }
      Step(Ok(()), t)
  }

  /** Deleting a user keeps the articles they wrote with the journalist set to null
      (SET_NULL), and removes the relation rows that point at them; nothing else changes. */
  function DeleteUser(s: State, uid: Id): (st: Step<()>)
    ensures st.result.Err? <==> uid !in s.users
    ensures st.result.Err? ==> st.result.error == NotFound && st.after == s
    ensures st.result.Ok? ==>
      && st.after.users.Keys == s.users.Keys - {uid}
      && (forall k :: k in st.after.users ==>
            st.after.users[k] == s.users[k].(
              subscribedJournalists := s.users[k].subscribedJournalists - {uid}))
      && st.after.publishers == s.publishers
      && st.after.groupNames == s.groupNames && st.after.nextArticleId == s.nextArticleId
      && st.after.articles.Keys == s.articles.Keys
      && (forall a :: a in s.articles ==>
            st.after.articles[a] == s.articles[a].(
              journalist := if s.articles[a].journalist == Some(uid) then None else s.articles[a].journalist))
    ensures Consistent(s) ==> Consistent(st.after)
  {
    if uid !in s.users then Step(Err(NotFound), s)
    else
      var t := s.(
        users := map k | k in s.users && k != uid :: s.users[k].(
          subscribedJournalists := s.users[k].subscribedJournalists - {uid}),
        articles := map a | a in s.articles :: s.articles[a].(
          journalist := if s.articles[a].journalist == Some(uid) then None else s.articles[a].journalist));
      assert Consistent(s) ==> Consistent(t) by {
        if Consistent(s) {
          forall k | k in t.users ensures UserConsistent(t, t.users[k]) {
            assert UserConsistent(s, s.users[k]);
          }
          forall k | k in t.articles ensures ArticleConsistent(t, k, t.articles[k]) {
            assert ArticleConsistent(s, k, s.articles[k]);
          }
        }
      }
      Step(Ok(()), t)
  }

  /** Deleting a journalist keeps every article: those they wrote lose only their journalist. */
  lemma DeleteJournalistKeepsArticles(s: State, j: Id, a: Id)
    requires j in s.users && a in s.articles && s.articles[a].journalist == Some(j)
    ensures var t := DeleteUser(s, j).after;
      a in t.articles && t.articles[a] == s.articles[a].(journalist := None)
  {
  }

  /** Deleting a publisher leaves no article of it behind and every other article untouched. */
  lemma DeletePublisherCascades(s: State, p: Id, a: Id)
    requires p in s.publishers && a in s.articles
    ensures var t := DeletePublisher(s, p).after;
      (a in t.articles <==> s.articles[a].publisher != p) &&
      (a in t.articles ==> t.articles[a] == s.articles[a])
  {
  }
}
