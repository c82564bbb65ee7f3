/** The post_save receivers of news_app/signals.py: the notification fan-out on a saved,
    approved article, and the clearing of role-irrelevant relations on user creation. */
module Signals {
  import opened Models

  const NoReplyAddress: string := "noreply@newsapp.com"
  const SubjectPrefix: string := "New Article: "

  /** publisher.subscribers: the users whose subscribed publishers include `p`. */
  function Subscribers(users: map<Id, User>, p: Id): set<Id> {
    set u | u in users && p in users[u].subscribedPublishers
  }

  /** journalist.followers: the users whose followed journalists include `j`. */
  function Followers(users: map<Id, User>, j: Id): set<Id> {
    set u | u in users && j in users[u].subscribedJournalists
  }

  /** The audience of an article: its publisher's subscribers, joined by its journalist's
      followers when it has a journalist. A user in both is one element of the set. */
  function Recipients(users: map<Id, User>, a: Article): (r: set<Id>)
    ensures r <= users.Keys
    ensures forall u :: u in r <==>
      u in users &&
      (a.publisher in users[u].subscribedPublishers ||
       (a.journalist.Some? && a.journalist.value in users[u].subscribedJournalists))
    ensures a.journalist == None ==> r == Subscribers(users, a.publisher)
  {
    var subs := Subscribers(users, a.publisher);
    if a.journalist.Some? then subs + Followers(users, a.journalist.value) else subs
  }

  /** The one mail sent to `email` about article `a`. */
  function Message(a: Article, email: string): Mail {
    Mail(SubjectPrefix + a.title, a.content, NoReplyAddress, [email])
  }

  /** The mails sent, in order, to the users listed in `order`. */
  function Messages(order: seq<Id>, a: Article, users: map<Id, User>): (ms: seq<Mail>)
    requires forall i :: 0 <= i < |order| ==> order[i] in users
    ensures |ms| == |order|
    decreases |order|
  {
    if order == [] then []
    else Messages(order[..|order| - 1], a, users) + [Message(a, users[order[|order| - 1]].email)]
  }

  /** The i-th mail goes to the i-th listed user alone, with subject "New Article: " and the
      title, the content as body, and the no-reply sender. */
  lemma {:induction false} MessagesSpec(order: seq<Id>, a: Article, users: map<Id, User>)
    requires forall i :: 0 <= i < |order| ==> order[i] in users
    ensures var ms := Messages(order, a, users);
      forall i :: 0 <= i < |order| ==>
        && ms[i].subject == SubjectPrefix + a.title
        && ms[i].message == a.content
        && ms[i].fromEmail == NoReplyAddress
        && ms[i].recipientList == [users[order[i]].email]
    decreases |order|
  {
    if order != [] {
      MessagesSpec(order[..|order| - 1], a, users);
    }
  }

  /** Sending to one more user appends that user's mail. */
  lemma MessagesAppend(order: seq<Id>, u: Id, a: Article, users: map<Id, User>)
    requires forall i :: 0 <= i < |order| ==> order[i] in users
    requires u in users
    ensures Messages(order + [u], a, users) == Messages(order, a, users) + [Message(a, users[u].email)]
  {
    assert (order + [u])[..|order|] == order;
  }

  predicate NoDuplicates(xs: seq<Id>) {
    forall i, j :: 0 <= i < j < |xs| ==> xs[i] != xs[j]
  }

  /** `order` lists every element of `s` exactly once: an iteration order of the set. */
  predicate IsEnumeration(order: seq<Id>, s: set<Id>) {
    && NoDuplicates(order)
    && (forall i :: 0 <= i < |order| ==> order[i] in s)
    && (forall x :: x in s ==> x in order)
  }

  /** Visiting one more element that was not yet visited extends an enumeration. */
  lemma EnumerationExtend(order: seq<Id>, s: set<Id>, x: Id)
    requires IsEnumeration(order, s) && x !in s
    ensures IsEnumeration(order + [x], s + {x})
  {
    var o := order + [x];
    forall i, j | 0 <= i < j < |o| ensures o[i] != o[j] {
      if j == |order| {
        assert o[i] == order[i] && order[i] in s;
      }
    }
  }

  lemma EnumerationTail(order: seq<Id>, s: set<Id>)
    requires IsEnumeration(order, s) && order != []
    ensures order[0] in s && IsEnumeration(order[1..], s - {order[0]})
  {
    var x, rest := order[0], order[1..];
    forall y | y in s - {x} ensures y in rest {
      var i :| 0 <= i < |order| && order[i] == y;
      assert i != 0;
      assert rest[i - 1] == y;
    }
  }

  /** An iteration of a set visits as many elements as the set has. */
  lemma {:induction false} EnumerationSize(order: seq<Id>, s: set<Id>)
    requires IsEnumeration(order, s)
    ensures |order| == |s|
    decreases |order|
  {
    if order == [] {
      assert forall x :: x in s ==> false;
      assert s == {};
    } else {
      EnumerationTail(order, s);
      EnumerationSize(order[1..], s - {order[0]});
    }
  }

  /** An iteration of a set visits each element once and nothing else. */
  lemma {:induction false} EnumerationVisitsOnce(order: seq<Id>, s: set<Id>, r: Id)
    requires IsEnumeration(order, s)
    ensures multiset(order)[r] == if r in s then 1 else 0
    decreases |order|
  {
    if order == [] {
      assert r !in s;
    } else {
      EnumerationTail(order, s);
      EnumerationVisitsOnce(order[1..], s - {order[0]}, r);
      assert order == [order[0]] + order[1..];
      assert multiset(order) == multiset{order[0]} + multiset(order[1..]);
    }
  }

  /** The fan-out of one approved save: one mail per recipient, so as many mails as recipients,
      and a user who both subscribes to the publisher and follows the journalist is mailed once. */
  lemma OneMailPerRecipient(order: seq<Id>, a: Article, users: map<Id, User>, u: Id)
    requires IsEnumeration(order, Recipients(users, a))
    ensures |Messages(order, a, users)| == |Recipients(users, a)|
    ensures multiset(order)[u] ==
      if u in users && (a.publisher in users[u].subscribedPublishers ||
                        (a.journalist.Some? && a.journalist.value in users[u].subscribedJournalists))
      then 1 else 0
  {
    EnumerationSize(order, Recipients(users, a));
    EnumerationVisitsOnce(order, Recipients(users, a), u);
  }

  /** clear_irrelevant_m2m on one user: at creation a reader loses their published articles and
      a journalist their subscriptions; editors, and every save that is not a creation, keep all. */
  function ClearIrrelevant(u: User, created: bool): (r: User)
    ensures !created ==> r == u
    ensures created && u.role == Reader ==> r == u.(publishedArticles := {})
    ensures created && u.role == Journalist ==> r == u.(subscribedPublishers := {}, subscribedJournalists := {})
    ensures u.role != Reader && u.role != Journalist ==> r == u
  {
    if !created then u
    else if u.role == Reader then u.(publishedArticles := {})
    else if u.role == Journalist then u.(subscribedPublishers := {}, subscribedJournalists := {})
    else u
  }

  lemma ClearIrrelevantKeepsConsistent(s: State, id: Id, created: bool)
    requires Consistent(s) && id in s.users
    ensures Consistent(s.(users := s.users[id := ClearIrrelevant(s.users[id], created)]))
  {
    var t := s.(users := s.users[id := ClearIrrelevant(s.users[id], created)]);
    forall k | k in t.users ensures UserConsistent(t, t.users[k]) {
      assert UserConsistent(s, s.users[k]);
    }
    forall k | k in t.articles ensures ArticleConsistent(t, k, t.articles[k]) {
      assert ArticleConsistent(s, k, s.articles[k]);
    }
  }

  /** A user row that has just been inserted has no relations yet, so the creation-time clearing
      leaves it as saved. */
  lemma ClearAfterInsertIsNoOp(s: State, id: Id, role: string, email: string, bio: Option<string>)
    requires id !in s.users
    requires SaveUser(s, id, role, email, bio).result.Ok?
    ensures var t := SaveUser(s, id, role, email, bio).after;
      ClearIrrelevant(t.users[id], true) == t.users[id]
  {
  }
}
