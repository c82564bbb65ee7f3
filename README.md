# News publishing app: a Dafny model of its role-based publishing core

The news app has three kinds of user: readers, journalists and editors. Readers subscribe
to publishers and follow journalists. Journalists write articles. Editors approve articles.
When an approved article is saved, every subscriber of its publisher and every follower of
its journalist gets one e-mail.

The model keeps the database as a value, `Models.State`. It holds the users, with their
role, e-mail, bio and many-to-many relations, the publishers, the articles, the names of
the existing auth groups, and the next article primary key. `Models.Consistent` is the
invariant every operation keeps:
- foreign keys and relation sets point at existing rows;
- every role is one of ROLE_CHOICES;
- a reader has no bio;
- every user is in the group named after their role.

Each view and ORM operation is a function from a state to a `Step`, which is an outcome
(`Ok`, or `Err` with `NotFound`, `Forbidden` or `ValidationError`) and the state after.
The running app is the class `App.NewsApp`. Its fields are the tables plus an `outbox`, a
sequence that records every `send_mail` call. Its methods update the fields in place, as
the views do with `.add`, `.remove` and `save()`. Each method is proved to produce exactly
the `Step` of its specification function. The two `post_save` receivers are methods that the
saving methods call, where Django would call them:
- `ClearIrrelevantM2M` is called by `SaveUser`.
- `NotifySubscribersOnApproval` is called by `CreateArticle` with `created = true` and by
  `ApproveArticle` with `created = false`.

Modules follow the source files:
- `models.dfy`: entities, invariants, `CustomUser.save`, and the delete semantics of the
  foreign keys.
- `signals.dfy`: the recipient union, the mails, and the creation-time clearing.
- `forms.dfy`: the cleaning of text input by form fields.
- `views.dfy`: the role tests, the redirect, the three dashboards, the six state-changing
  views, and the approval-monotonicity theorem over any sequence of operations.
- `app.dfy`: the class, plus an end-to-end "Tech News" scenario.

Behaviour of the code that the model keeps as written:
- `CustomUser.save` ensures the role's group on every save, not only the first one
  (models.py:49-51).
- Only a reader's bio is cleared. The journalist branch does nothing, and an editor keeps their
  bio (models.py:40-44).
- An unknown publisher in the article form is a form error, because the ModelForm's publisher
  field only accepts existing rows (forms.py:13-15).
- `create_article` never adds the article to the author's `published_articles`
  (views.py:91-93).
- The notification receiver fires on every update save of an approved article (signals.py:8).
  Approving an already approved article therefore mails its audience again.
  `Views.ReapprovalChangesNoRow`, the contract of `App.NewsApp.ApproveArticle` and
  `App.TechNewsScenario` together show this.
- Form fields strip surrounding whitespace and refuse NUL characters, Django's defaults for a
  form CharField (forms.py:4-15). A title of spaces alone is refused, and a padded title is
  stored, and mailed, stripped.

## Model

| member | source | states |
|---|---|---|
| `Forms.LeadingEnd` | news_project/news_app/forms.py:4-15 | the run of whitespace from the given index ends at the returned index, which holds no whitespace |
| `Forms.TrailingStart` | news_project/news_app/forms.py:4-15 | the run of whitespace ending at the given index starts at the returned index, just after a character that is not whitespace |
| `Forms.Strip` | news_project/news_app/forms.py:4-15 | the cleaned value is no longer than the input and neither starts nor ends with whitespace |
| `Forms.StripSlice` | news_project/news_app/forms.py:4-15 | the cleaned value is a contiguous slice of the input, and everything removed at either end is whitespace |
| `Forms.StripEmptyIffBlank` | news_project/news_app/forms.py:4-15 | a value strips to nothing exactly when all its characters are whitespace |
| `Forms.StripKeepsTrimmed` | news_project/news_app/forms.py:4-15 | a value without surrounding whitespace is stored unchanged |
| `Forms.StripIdempotent` | news_project/news_app/forms.py:4-15 | cleaning a cleaned value changes nothing |
| `Forms.TrimmedIsAccepted` | news_project/news_app/forms.py:4-15 | a value without surrounding whitespace or NUL that fits the length limit is accepted by a required field and stored unchanged |
| `Forms.RequiredCharValidIff` | news_project/news_app/forms.py:4-15 | a required field accepts a value exactly when some character is not whitespace, the stripped value fits the limit, and no character is NUL |
| `Models.Saved` | news_project/news_app/models.py:38-51 | saving clears the bio exactly when the role is reader and keeps it otherwise; afterwards the groups are the old groups plus the role's group; no other field changes |
| `Models.SavedIdempotent` | news_project/news_app/models.py:49-51 | saving twice gives the same user as saving once |
| `Models.SaveUser` | news_project/news_app/models.py:21-51 | a role outside ROLE_CHOICES is a validation error that changes nothing; otherwise the user under that id is inserted or updated with the role, e-mail and (for non-readers) bio; an update keeps the relation sets; an insert starts with empty ones; the role's group exists and the user is in it; every other user is unchanged; consistency is kept |
| `Models.SavePublisher` | news_project/news_app/models.py:13-15 | a name that is blank after stripping, over 255 characters after stripping, or contains NUL is a validation error that changes nothing; otherwise only that publisher row is written, with the stripped name; consistency is kept |
| `Models.DeletePublisher` | news_project/news_app/models.py:57-59 | an unknown publisher is NotFound; otherwise the publisher and exactly its articles disappear, other articles are untouched, and every user loses only the relation rows to the removed publisher and articles; consistency is kept |
| `Models.DeleteUser` | news_project/news_app/models.py:60-63 | an unknown user is NotFound; otherwise every article stays, with the journalist set to null where it was that user, and other users lose only their follow of that user; consistency is kept |
| `Models.DeleteJournalistKeepsArticles` | news_project/news_app/models.py:60-63 | an article by a deleted journalist survives with only its journalist nulled |
| `Models.DeletePublisherCascades` | news_project/news_app/models.py:57-59 | after a publisher delete an article exists exactly when its publisher was another one, and is then unchanged |
| `Signals.Recipients` | news_project/news_app/signals.py:9-11 | a user is a recipient exactly when they subscribe to the article's publisher or follow its journalist; with a null journalist it is just the publisher's subscribers; every recipient is a stored user |
| `Signals.Messages` | news_project/news_app/signals.py:14-21 | one mail per listed user, in the listed order |
| `Signals.MessagesSpec` | news_project/news_app/signals.py:15-21 | the i-th mail has subject "New Article: " + title, the content as body, sender noreply@newsapp.com, and the i-th listed user's e-mail as its only recipient |
| `Signals.MessagesAppend` | news_project/news_app/signals.py:14-21 | sending to one more user appends exactly that user's mail |
| `Signals.EnumerationSize` | news_project/news_app/signals.py:14 | iterating over the recipient set visits as many users as the set holds |
| `Signals.EnumerationVisitsOnce` | news_project/news_app/signals.py:14 | iterating over a set visits each member exactly once and nothing else |
| `Signals.OneMailPerRecipient` | news_project/news_app/signals.py:9-21 | the number of mails equals the number of recipients, and a user gets one mail if they subscribe to the publisher or follow the journalist (or both) and none otherwise |
| `Signals.ClearIrrelevant` | news_project/news_app/signals.py:24-31 | on creation a reader loses their published articles and a journalist their subscriptions and follows; editors and all non-creation saves keep everything |
| `Signals.ClearAfterInsertIsNoOp` | news_project/news_app/signals.py:24-31 | a freshly inserted user has no relations, so the creation-time clearing leaves them as saved |
| `Views.RoleTestsPartitionChoices` | news_project/news_app/views.py:15-22 | one of is_reader, is_journalist, is_editor holds exactly when the role is one of ROLE_CHOICES, and no two hold together |
| `Views.RedirectDashboard` | news_project/news_app/views.py:116-128 | reader, journalist and editor go to their own dashboard; no role or any other role goes to login |
| `Views.RedirectLeadsToPermittedDashboard` | news_project/news_app/views.py:116-128 | every stored user is redirected to a dashboard, never to login, and it is exactly the one whose role test they pass |
| `Views.NewestFirst` | news_project/news_app/views.py:36 | the listing contains every article of the set exactly once, and created_at never increases along it |
| `Views.ReaderDashboard` | news_project/news_app/views.py:25-36 | a caller who is not a reader is Forbidden; otherwise the listing holds exactly the approved articles whose publisher the reader subscribes to or whose journalist they follow, without duplicates, newest first |
| `Views.JournalistDashboard` | news_project/news_app/views.py:78-81 | a caller who is not a journalist is Forbidden; otherwise exactly the articles whose journalist is the caller, approved or not, without duplicates, newest first |
| `Views.EditorDashboard` | news_project/news_app/views.py:100-103 | a caller who is not an editor is Forbidden; otherwise exactly the unapproved articles, without duplicates, newest first |
| `Views.SubscribePublisher` | news_project/news_app/views.py:48-53 | a non-reader is Forbidden and an unknown publisher NotFound, both changing nothing; otherwise only the caller's subscribed publishers change, to the old set plus the publisher; consistency is kept |
| `Views.UnsubscribePublisher` | news_project/news_app/views.py:56-61 | Forbidden/NotFound as for subscribing, changing nothing; otherwise only the caller's subscribed publishers change, to the old set minus the publisher |
| `Views.FollowJournalist` | news_project/news_app/views.py:63-68 | a non-reader is Forbidden; a target that is missing or not a journalist is NotFound; both change nothing; otherwise only the caller's followed journalists change, to the old set plus the target |
| `Views.UnfollowJournalist` | news_project/news_app/views.py:70-75 | as following, with the target removed from the caller's followed journalists |
| `Views.CreateArticle` | news_project/news_app/views.py:85-94 | a non-journalist is Forbidden; a title or content that is blank after stripping or contains NUL, a stripped title over 255 characters, or an unknown publisher is a validation error; both change nothing; otherwise one article is added under the next primary key, with the stripped title and content, by the caller, unapproved, created now; existing articles and all users are unchanged; consistency is kept |
| `Views.ApproveArticle` | news_project/news_app/views.py:107-113 | a non-editor is Forbidden and an unknown article NotFound, both changing nothing; otherwise only that article's approval flag changes, to true |
| `Views.SubscribeIdempotent` | news_project/news_app/views.py:50-53 | subscribing twice gives the same outcome and state as subscribing once |
| `Views.UnsubscribeIdempotent` | news_project/news_app/views.py:58-61 | unsubscribing twice gives the same outcome and state as unsubscribing once |
| `Views.FollowIdempotent` | news_project/news_app/views.py:65-68 | following twice gives the same outcome and state as following once |
| `Views.UnfollowIdempotent` | news_project/news_app/views.py:72-75 | unfollowing twice gives the same outcome and state as unfollowing once |
| `Views.RemovingAbsentEdgeIsNoOp` | news_project/news_app/views.py:56-75 | removing a subscription or follow that is not there succeeds and changes nothing |
| `Views.FollowIsAsymmetric` | news_project/news_app/models.py:28-30 | a successful follow leaves the followed journalist's own follows unchanged |
| `Views.SubscribeShowsPublisherArticles` | news_project/news_app/views.py:32-53 | after subscribing, the reader's dashboard contains every approved article of that publisher |
| `Views.UnsubscribeHidesPublisherArticles` | news_project/news_app/views.py:32-61 | after unsubscribing, an article of that publisher is not on the dashboard unless its journalist is followed |
| `Views.ReapprovalChangesNoRow` | news_project/news_app/views.py:107-113 | approving an already approved article succeeds and leaves the state as it was |
| `Views.ApplyKeepsApproved` | news_project/news_app/views.py:107-113 | no single modelled request (one of the `Request` cases: the six views, the user and publisher saves, the two deletes) turns an existing approved article unapproved or reuses its primary key |
| `Views.RunKeepsApproved` | news_project/news_app/views.py:107-113 | the same over any sequence of modelled requests |
| `Views.ApprovalIsMonotone` | news_project/news_app/models.py:64 | in a consistent state, an approved article stays approved for as long as it exists, whatever sequence of modelled requests follows; the admin's Article change form, which can clear the flag, is not one of them |
| `Views.RunKeepsConsistent` | news_project/news_app/models.py:21-65 | every sequence of modelled requests keeps the state consistent |
| `App.NewsApp.constructor` | news_project/news_app/models.py:13-65 | the app starts with empty tables, an empty outbox, and a consistent state |
| `App.NewsApp.SavePublisher` | news_project/news_app/models.py:13-15 | the fields change exactly as `Models.SavePublisher` says; no mail |
| `App.NewsApp.SaveUser` | news_project/news_app/models.py:38-51 | the field updates, the in-save clearing receiver and the conditional group add together give exactly `Models.SaveUser`; no mail |
| `App.NewsApp.WriteUserRow` | news_project/news_app/models.py:38-51 | clearing a reader's bio, storing the row, running the clearing receiver on a fresh row and adding the missing role group together write exactly the saved row and nothing else |
| `App.NewsApp.ClearIrrelevantM2M` | news_project/news_app/signals.py:23-31 | only the saved user's row changes, as `Signals.ClearIrrelevant` says |
| `App.NewsApp.DeletePublisher` | news_project/news_app/models.py:57-59 | the fields change exactly as `Models.DeletePublisher` says; no mail |
| `App.NewsApp.DeleteUser` | news_project/news_app/models.py:60-63 | the fields change exactly as `Models.DeleteUser` says; no mail |
| `App.NewsApp.SubscribePublisher` | news_project/news_app/views.py:48-53 | in-place set insert with exactly the outcome and state of `Views.SubscribePublisher`; no mail |
| `App.NewsApp.UnsubscribePublisher` | news_project/news_app/views.py:56-61 | in-place set removal with exactly the outcome and state of `Views.UnsubscribePublisher`; no mail |
| `App.NewsApp.FollowJournalist` | news_project/news_app/views.py:63-68 | in-place set insert with exactly the outcome and state of `Views.FollowJournalist`; no mail |
| `App.NewsApp.UnfollowJournalist` | news_project/news_app/views.py:70-75 | in-place set removal with exactly the outcome and state of `Views.UnfollowJournalist`; no mail |
| `App.NewsApp.CreateArticle` | news_project/news_app/views.py:85-94 | exactly the outcome and state of `Views.CreateArticle`; the insert-save sends no mail, even through the receiver |
| `App.NewsApp.ApproveArticle` | news_project/news_app/views.py:107-113 | exactly the outcome and state of `Views.ApproveArticle`; on success the outbox grows by one mail per recipient, in some order that lists each recipient once, also for an article that was approved already; on failure no mail |
| `App.NewsApp.NotifySubscribersOnApproval` | news_project/news_app/signals.py:6-21 | on an update save of an approved article the outbox grows by the mails to an ordering of the recipients that lists each once; on an insert save or for an unapproved article nothing is sent; no table changes |
| `App.NewsApp.SendEach` | news_project/news_app/signals.py:14-21 | the send loop visits every element of the recipient set exactly once, and the outbox grows by that user's mail at each visit, in visiting order |
| `App.InsertedUser` | news_project/news_app/models.py:38-51 | saving a new user writes the given role and e-mail, the bio unless the role is reader, no relations, and only the role's group |
| `App.TechNewsInputIsClean` | news_project/news_app/forms.py:4-15 | the scenario's publisher name, title and content pass the forms and are stored unchanged |
| `App.SetUpTechNews` | news_project/news_app/views.py:85-94 | the "Tech News" setup (publisher, journalist, editor, reader, one new article) yields exactly the expected tables and no mail |
| `App.ApproveWithoutAudience` | news_project/news_app/signals.py:8-11 | approving with no subscribers or followers mails nobody, and a reader without subscriptions sees an empty dashboard |
| `App.SubscribeToTechNews` | news_project/news_app/views.py:27-53 | after the reader subscribes, their dashboard is exactly the one approved article |
| `App.TechNewsAudience` | news_project/news_app/signals.py:9-21 | with reader 4 subscribed and nobody following, the audience of "Breaking" is reader 4 alone, and mailing it is exactly the expected mail |
| `App.TechNewsScenario` | news_project/news_app/signals.py:8-21 | approving the already approved "Breaking" once the reader subscribes leaves the article as it was and puts exactly one mail in the outbox, to that reader, with subject "New Article: Breaking" |

Definitions without a contract of their own, used by the members above:
- `Models.NewArticle`: the field defaults of a new article (unapproved). `Views.CreateArticle`
  states the stored row.
- `Models.NewUser`: the row of a user before any relation is added.
- `Models.ArticlesOf`: the set that CASCADE deletes with a publisher. `Models.DeletePublisher`
  states its effect.
- `Signals.Subscribers` and `Signals.Followers`: the reverse relations `subscribers` and
  `followers`. `Signals.Recipients` states their union.
- `Signals.Message`: the arguments of one `send_mail` call (signals.py:15-20).
  `Signals.MessagesSpec` states them.
- `Views.IsReader`, `Views.IsJournalist` and `Views.IsEditor`: the role tests of
  views.py:15-22. `Views.RoleTestsPartitionChoices` states how they divide the roles.
- `Views.JournalistTarget`: the role-filtered lookup of views.py:66 and 73. The follow and
  unfollow views state its NotFound case.
- `Views.ArticleFormValid`: the ArticleForm rule of forms.py:4-15. `Views.CreateArticle`
  states when it refuses.
- `Forms.IsSpace`, `Forms.RequiredCharValid` and `Forms.RequiredTextValid`: Python's
  whitespace test and the acceptance rule of a required form field.

## Left out

- HTTP routing, templates and redirects. Each view is modelled by its effect on the state
  and its outcome only. The GET branch of `create_article` renders a form and changes
  nothing, so it is not modelled.
- Authentication, sessions and passwords (`login_required`, `CustomLoginView`,
  `CustomLogoutView`). A caller is a user id. An unknown id fails the gate, as an
  anonymous user would. The login success URL repeats `redirect_dashboard`.
- The admin site, including its bulk `approve_articles` action (admin.py:43-49). That action
  is a queryset update, which sends no `post_save` and so mails nobody. Editing relations or
  extra groups through the admin is not an operation of the model either.
- The admin's Article change form. `ArticleAdmin` lists no fields (admin.py:39-51), so the
  form edits every editable field of Article, `is_approved` included. Staff can therefore set
  an approved article back to unapproved, the one path in the source from approved to
  unapproved. `Views.ApprovalIsMonotone` and `Views.RunKeepsApproved` cover only the modelled
  `Request`s, so they say nothing about this form. That form's save is also a `save()`. So
  every time it saves an approved article, the receiver mails the whole audience again
  (signals.py:8).
- Forms and serializers. The article form's rule is modelled: title and content required and
  stripped, no NUL, title at most 255 characters after stripping, publisher an existing one.
  Error messages, re-rendering of a refused form, and the serializers are not modelled.
- Models.SaveUser: stands for `CustomUser.save()` on a row whose role has already passed
  choice validation, by a form or by `full_clean`. `save()` itself validates nothing
  (models.py:38-51). So `create_user` without a role stores role "" and creates and joins a
  group "", which the model refuses with ValidationError. Stripping of e-mail and bio by a
  form is not modelled: they are stored as given.
- The admin's user change form after `save()`. The form lists `groups` and the relation
  fields (admin.py:14-16). After `obj.save()`, Django's change view calls `form.save_m2m()`,
  which sets `groups` and the relation sets to exactly the submitted values. The submitted
  `groups` were read before the save, so they lack the new role's group that models.py:49-51
  adds. An admin role change therefore leaves the user outside the new role's group, which
  `Models.Consistent` rules out. The model does not capture this reset.
- Models.SavePublisher: stands for the admin form's validated save, not for
  `Publisher.save()`, which checks neither blank nor max_length. The name is cleaned as the
  form cleans it. The description is stored as given, without the form's stripping.
- Writes that bypass validation. A raw ORM create can store a role outside ROLE_CHOICES, an
  over-long title or a blank one. The model validates every save, so `Consistent` can
  require a valid role.
- Fields of the framework user other than role, e-mail, bio, groups and the relations
  (username, password, staff flags), and group permissions.
- Mail transport. Each `send_mail` call is one outbox entry. Because of `fail_silently`, a
  failed delivery looks the same as a successful one.
- Wall-clock time. `created_at` is an integer supplied by the caller.
- Transactions and concurrent requests, for example two simultaneous approvals.
- The visiting order of the recipient set, which Python leaves unspecified. It is a ghost
  sequence the contracts quantify over.
- Ties in `order_by('-created_at')`. The model breaks them by primary key. The dashboard
  contracts promise only a non-increasing created_at, as the source does.
- tests.py. It is malformed at module level and requests a route that does not exist, so
  nothing is derived from it.
