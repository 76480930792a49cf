# Link store model

A Dafny model of the `Link` model of a link-sharing application, as its model examples
(`spec/models/link_spec.rb`) pin it down. A link is a submitted url with an optional title.
A link gets channel-specific contents, one kind for Twitter and one for Facebook. Each
content gets posts, and users can like a link. The model covers:

- the store, a class whose tables (links, contents, posts, likes) are sequences that only
  grow. Creating a link runs the url presence and uniqueness validations and inserts only
  when they pass, as one atomic step. Every reachable store therefore has present,
  pairwise-distinct urls and ascending ids.
- `Link.unposted`: the links not yet posted through both a Twitter content and a Facebook
  content, in id order. The model proves this order is the only id-ordered sequence with
  those members.
- `#link_with_same_url`: the first stored link other than the receiver with the same url.
  An unsaved record (`Link.new`, id nil) is different from every stored link.
- `valid?` and `#error_due_to_duplicate_url?`: a record carries the errors of its last
  validation run. The flag is raised only after a validation run finds a twin.
- `#display_name`: the title when it is present, otherwise the url.
- `#liked_by?(user)`: a membership test over the likes.

Files: `wrappers.dfy` (Option), `link.dfy` (records, queries and their lemmas),
`store.dfy` (the `Store` class), `link_spec.dfy` (each example as a client method whose
postcondition is the example's expectation).

A link posted to only Twitter or only Facebook stays in `unposted`
(`spec/models/link_spec.rb:36-46`). It drops out only when it is posted to both
(`spec/models/link_spec.rb:48-54`).

## Model

| member | source | states |
|---|---|---|
| `LinkModel.HasPostVia` | spec/models/link_spec.rb:36-54 | a post row on a content of channel `ch` that belongs to the link; an unsaved link is never posted |
| `LinkModel.PostedEverywhere` | spec/models/link_spec.rb:36-54 | defines posted as a post via a Twitter content and via a Facebook content; `Unposted`, `StaysUnpostedWithOneChannelMissing` and `PostedOnBothIsExcluded` are stated in terms of it |
| `LinkModel.Unposted` | spec/models/link_spec.rb:29-54 | a link is in the result iff it is in the table and is not posted through both a Twitter and a Facebook content |
| `LinkModel.StaysUnpostedWithOneChannelMissing` | spec/models/link_spec.rb:36-46 | a stored link with no post on one channel is still unposted, for either channel |
| `LinkModel.PostedOnBothIsExcluded` | spec/models/link_spec.rb:48-54 | a link with a post via Twitter and a post via Facebook is not unposted |
| `LinkModel.UnpostedOrderedById` | spec/models/link_spec.rb:33 | over an id-ordered table the result of unposted is id-ordered |
| `LinkModel.UnpostedIsTheOrderedUnpostedSet` | spec/models/link_spec.rb:29-54 | the order is deterministic: the only id-ordered sequence whose members are exactly the unposted links is the result of unposted |
| `LinkModel.OrderedSameMembersEqual` | spec/models/link_spec.rb:33 | two id-ordered sequences with the same members are equal |
| `LinkModel.LinkWithSameUrl` | spec/models/link_spec.rb:69-78 | the result is a stored link with the receiver's url and a different id; it is nil iff every stored link with that url is the receiver |
| `LinkModel.AppendKeepsWellFormed` | spec/models/link_spec.rb:24-25 | inserting a saved link whose url is present and new, with the largest id, keeps urls present and distinct and ids ascending |
| `LinkModel.SameUrlSameLink` | spec/models/link_spec.rb:25 | in a table with distinct urls two links with one url are the same link |
| `LinkModel.StoredLinkHasNoTwin` | spec/models/link_spec.rb:70-72 | in a well-formed table a stored link's link_with_same_url is nil |
| `LinkModel.UnsavedTwinFound` | spec/models/link_spec.rb:74-77 | a new unsaved link with a stored link's url finds exactly that stored link |
| `LinkModel.Validate` | spec/models/link_spec.rb:24-25 | url blank iff the url is empty; url taken iff another link has the url; no error iff both checks pass |
| `LinkModel.NewRecord` | spec/models/link_spec.rb:63 | `Link.new` gives an unsaved record with the given attributes and no errors |
| `LinkModel.RunValidations` | spec/models/link_spec.rb:64 | `valid?` keeps the attributes and leaves no error iff the url is present and no other link has it |
| `LinkModel.ErrorDueToDuplicateUrl` | spec/models/link_spec.rb:57-67 | the uniqueness error is among the record's errors; `DuplicateFlagIffTwin` gives its meaning after `valid?` |
| `LinkModel.DuplicateFlagIffTwin` | spec/models/link_spec.rb:57-67 | after validation the duplicate-url flag is set iff link_with_same_url finds a link |
| `LinkModel.StoredLinkRevalidatesClean` | spec/models/link_spec.rb:58-60 | revalidating a stored link in a well-formed table gives no errors, so no duplicate flag |
| `LinkModel.DuplicateFlaggedOnlyAfterValidation` | spec/models/link_spec.rb:62-66 | a new link with a stored url has no flag before `valid?` and has it after |
| `LinkModel.DisplayName` | spec/models/link_spec.rb:80-95 | the display name is the url or the given title, and is non-empty when the url is |
| `LinkModel.DisplayNameCases` | spec/models/link_spec.rb:80-95 | for every link, saved or not: a present (given, non-empty) title is the display name; an empty or absent title gives the url |
| `LinkModel.LikedBy` | spec/models/link_spec.rb:97-108 | a like of this link's id by this user; an unsaved link is never liked |
| `LinkModel.LikeRecorded` | spec/models/link_spec.rb:97-108 | after recording a like the pair is liked, and every other (link, user) answer is unchanged |
| `LinkStore.Store.constructor` | spec/models/link_spec.rb:27 | an empty, valid store |
| `LinkStore.Store.CreateLink` | spec/models/link_spec.rb:24-27 | saves iff the url is present and not already stored, appending exactly the new link with an id no stored link has; otherwise the table is unchanged and the record carries the errors; the duplicate flag is set iff the url was already stored; the invariant is kept |
| `LinkStore.Store.CreateContent` | spec/models/link_spec.rb:37 | appends one new content for the given link and channel, nothing else changes, the invariant is kept |
| `LinkStore.Store.CreatePost` | spec/models/link_spec.rb:38 | appends one new post for the given content, nothing else changes, the invariant is kept |
| `LinkStore.Store.CreateLike` | spec/models/link_spec.rb:105 | appends the like; the pair becomes liked and no other (link, user) answer changes |
| `LinkStore.ValidStoreUrlsUnique` | spec/models/link_spec.rb:24-25 | in every valid store two different links have different urls, and every url is present |
| `LinkExamples.CreatedLink` | spec/models/link_spec.rb:27 | creating a link in a fresh store gives a store holding exactly that saved link |
| `LinkExamples.UnpostedIncludesLinksWithNoPosts` | spec/models/link_spec.rb:32-34 | unposted is `[link]` |
| `LinkExamples.UnpostedIncludesLinksPostedToOneChannel` | spec/models/link_spec.rb:36-46 | with one content and one post on either channel, unposted is `[link]` |
| `LinkExamples.UnpostedExcludesLinksPostedToBoth` | spec/models/link_spec.rb:48-54 | with a posted Twitter content and a posted Facebook content, unposted is `[]` |
| `LinkExamples.DuplicateFlagFalseTypically` | spec/models/link_spec.rb:58-60 | a created link has no duplicate flag |
| `LinkExamples.DuplicateFlagTrueForNewLinkWithSameUrl` | spec/models/link_spec.rb:62-66 | a new link with the stored url has the flag after `valid?` |
| `LinkExamples.LinkWithSameUrlNilTypically` | spec/models/link_spec.rb:70-72 | link_with_same_url of the stored link is nil |
| `LinkExamples.LinkWithSameUrlFindsExisting` | spec/models/link_spec.rb:74-77 | link_with_same_url of a new link with the stored url is the stored link |
| `LinkExamples.DisplayNames` | spec/models/link_spec.rb:80-95 | the titled link shows its title; the empty-titled and untitled links show their urls |
| `LinkExamples.LikedByBeforeAndAfter` | spec/models/link_spec.rb:97-108 | liked_by? is false before the like and true after it |

## Left out

- The shared examples 'it is likable' and 'it is deletable': their definitions are not part of this model. Deleting is not modelled, and likes are reduced to appending and the membership test.
- The `user` association, `summary`, and the `created_at`/`updated_at` timestamps: no example depends on them.
- Persistence (ActiveRecord, the schema, SQL, factories): the store is in memory. Ids are assigned by counters starting at 1.
- Concurrent submissions of one url: creation is one atomic check-and-insert, so there are no races to model.
- A storage failure during an operation: the in-memory store cannot fail.
- Blankness: a url is present when it is a non-empty string, so whitespace-only urls count as present. A title is present when it is given and non-empty, with no trimming. A nil url is modelled as the empty string.
- The uniqueness error carries no reference to the existing link; `LinkWithSameUrl` finds that link.
- `LinkStore.Store.CreateContent`: does not check that the link id names a stored link, because the examples specify no validation of contents.
- `LinkStore.Store.CreatePost`: does not check that the content id names a stored content, because the examples specify no validation of posts.
- Channels are exactly Twitter and Facebook, the two content associations the examples name.
