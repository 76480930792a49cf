/**
 * The records of the link store and the queries over them: `Link.unposted`,
 * `Link#link_with_same_url`, the url validations, `Link#error_due_to_duplicate_url?`,
 * `Link#display_name` and `Link#liked_by?`.  Everything here only reads the
 * store's sequences; the store that appends to them is in module LinkStore.
 */
module LinkModel {
  import opened Wrappers

  /** The two channels a link is prepared for: twitter_contents and facebook_contents. */
  datatype Channel = Twitter | Facebook

  /** A link row.  `id` is None for a record built with `Link.new` and not yet saved. */
  datatype Link = Link(id: Option<nat>, url: string, title: Option<string>)

  /** A channel-specific content row; it belongs to the link with id `linkId`. */
  datatype Content = Content(id: nat, linkId: nat, channel: Channel)

  /** A post row; it belongs to the content with id `contentId`. */
  datatype Post = Post(id: nat, contentId: nat)

  /** A like of the link with id `linkId` by the user with id `userId`. */
  datatype Like = Like(linkId: nat, userId: nat)

  /** The two validation failures on `url`: presence and uniqueness. */
  datatype ValidationError = UrlBlank | UrlTaken

  /** A model instance: its attributes and the errors left by its last validation run. */
  datatype Record = Record(link: Link, errors: seq<ValidationError>)

  function Other(ch: Channel): Channel
  {
    match ch
    case Twitter => Facebook
    case Facebook => Twitter
  }

  predicate Persisted(l: Link)
  {
    l.id.Some?
  }

  /** The primary key used for ordering; an unsaved record sorts before every row. */
  function IdOf(l: Link): int
  {
    if l.id.Some? then l.id.value else -1
  }

  predicate IdsIncreasing(links: seq<Link>)
  {
    forall i, j :: 0 <= i < j < |links| ==> IdOf(links[i]) < IdOf(links[j])
  }

  predicate UrlsDistinct(links: seq<Link>)
  {
    forall i, j :: 0 <= i < j < |links| ==> links[i].url != links[j].url
  }

  /** What every reachable links table satisfies: saved rows, ascending ids, present and unique urls. */
  predicate WellFormed(links: seq<Link>)
  {
    && (forall l :: l in links ==> Persisted(l) && l.url != "")
    && IdsIncreasing(links)
    && UrlsDistinct(links)
  }

  /** Appending a saved row with a present url that is new and an id above all others keeps the table well formed. */
  lemma AppendKeepsWellFormed(links: seq<Link>, l: Link)
    requires WellFormed(links)
    requires Persisted(l) && l.url != ""
    requires forall m :: m in links ==> m.url != l.url && IdOf(m) < IdOf(l)
    ensures WellFormed(links + [l])
  {
    var r := links + [l];
    forall i, j | 0 <= i < j < |r|
      ensures r[i].url != r[j].url && IdOf(r[i]) < IdOf(r[j])
    {
      if j == |links| {
        assert r[i] in links;
      } else {
        assert r[i] == links[i] && r[j] == links[j];
      }
    }
  }

  // ---------------------------------------------------------------------------
  // Publication status

  /** Some post is recorded against content `c`. */
  predicate HasPost(posts: seq<Post>, c: Content)
  {
    exists p :: p in posts && p.contentId == c.id
  }

  /** Link `l` has a post through one of its contents on channel `ch`. */
  predicate HasPostVia(contents: seq<Content>, posts: seq<Post>, l: Link, ch: Channel)
    ensures HasPostVia(contents, posts, l, ch) ==> Persisted(l)
  {
    exists c :: c in contents && l.id == Some(c.linkId) && c.channel == ch && HasPost(posts, c)
  }

  /** Link `l` has been posted through a Twitter content and through a Facebook content. */
  predicate PostedEverywhere(contents: seq<Content>, posts: seq<Post>, l: Link)
  {
    HasPostVia(contents, posts, l, Twitter) && HasPostVia(contents, posts, l, Facebook)
  }

  /** `Link.unposted`: the links not yet posted on both channels, in table (id) order. */
  function Unposted(links: seq<Link>, contents: seq<Content>, posts: seq<Post>): (r: seq<Link>)
    ensures forall l :: l in r <==> l in links && !PostedEverywhere(contents, posts, l)
    ensures |r| <= |links|
  {
    if links == [] then []
    else
      var rest := Unposted(links[1..], contents, posts);
      if PostedEverywhere(contents, posts, links[0]) then rest else [links[0]] + rest
  }

  /** A link with no post on one of the two channels is still unposted, whichever channel it is. */
  lemma StaysUnpostedWithOneChannelMissing(links: seq<Link>, contents: seq<Content>, posts: seq<Post>, l: Link, ch: Channel)
    requires l in links
    requires !HasPostVia(contents, posts, l, Other(ch))
    ensures l in Unposted(links, contents, posts)
  {
  }

  /** A link posted through both channels is not unposted. */
  lemma PostedOnBothIsExcluded(links: seq<Link>, contents: seq<Content>, posts: seq<Post>, l: Link)
    requires HasPostVia(contents, posts, l, Twitter) && HasPostVia(contents, posts, l, Facebook)
    ensures l !in Unposted(links, contents, posts)
  {
  }

  /** `unposted` keeps the id order of the table it reads. */
  lemma {:induction false} UnpostedOrderedById(links: seq<Link>, contents: seq<Content>, posts: seq<Post>)
    requires IdsIncreasing(links)
    ensures IdsIncreasing(Unposted(links, contents, posts))
  {
    if links != [] {
      var rest := Unposted(links[1..], contents, posts);
      UnpostedOrderedById(links[1..], contents, posts);
      if !PostedEverywhere(contents, posts, links[0]) {
        forall j | 0 <= j < |rest|
          ensures IdOf(links[0]) < IdOf(rest[j])
        {
          assert rest[j] in links[1..];
          var k :| 0 <= k < |links[1..]| && links[1..][k] == rest[j];
          assert links[k + 1] == rest[j];
        }
        var r := [links[0]] + rest;
        forall i, j | 0 <= i < j < |r|
          ensures IdOf(r[i]) < IdOf(r[j])
        {
          if i > 0 {
            assert r[i] == rest[i - 1] && r[j] == rest[j - 1];
          } else {
            assert r[j] == rest[j - 1];
          }
        }
      }
    }
  }

  /** Two id-ordered sequences with the same members are the same sequence. */
  lemma {:induction false} OrderedSameMembersEqual(a: seq<Link>, b: seq<Link>)
    requires IdsIncreasing(a) && IdsIncreasing(b)
    requires forall l :: l in a <==> l in b
    ensures a == b
  {
    if a == [] {
      assert forall i | 0 <= i < |b| :: b[i] in b;
    } else {
      assert a[0] in b;
      assert b[0] in a;
      forall l
        ensures l in a[1..] <==> l in b[1..]
      {
        if l in a[1..] {
          var k :| 0 <= k < |a[1..]| && a[1..][k] == l;
          assert IdOf(a[0]) < IdOf(a[k + 1]);
          assert l in b && l != b[0];
        }
        if l in b[1..] {
          var k :| 0 <= k < |b[1..]| && b[1..][k] == l;
          assert IdOf(b[0]) < IdOf(b[k + 1]);
          assert l in a && l != a[0];
        }
      }
      OrderedSameMembersEqual(a[1..], b[1..]);
      assert a == [a[0]] + a[1..];
      assert b == [b[0]] + b[1..];
    }
  }

  /**
   * The order of `unposted` is deterministic and total: over an id-ordered table, the only
   * id-ordered sequence holding exactly the links not posted on both channels is `Unposted`.
   */
  lemma UnpostedIsTheOrderedUnpostedSet(links: seq<Link>, contents: seq<Content>, posts: seq<Post>, s: seq<Link>)
    requires IdsIncreasing(links) && IdsIncreasing(s)
    requires forall l :: l in s <==> l in links && !PostedEverywhere(contents, posts, l)
    ensures s == Unposted(links, contents, posts)
  {
    UnpostedOrderedById(links, contents, posts);
    OrderedSameMembersEqual(s, Unposted(links, contents, posts));
  }

  // ---------------------------------------------------------------------------
  // Url presence and uniqueness

  /**
   * `Link#link_with_same_url`: the first stored link, other than `self`, whose url is
   * `self.url`.  An unsaved record (id None) is different from every stored row.
   */
  function LinkWithSameUrl(links: seq<Link>, self: Link): (r: Option<Link>)
    ensures r.Some? ==> r.value in links && r.value.url == self.url && r.value.id != self.id
    ensures r.None? <==> forall l :: l in links && l.url == self.url ==> l.id == self.id
  {
    if links == [] then None
    else if links[0].url == self.url && links[0].id != self.id then Some(links[0])
    else LinkWithSameUrl(links[1..], self)
  }

  /** In a table with distinct urls a url names at most one row. */
  lemma SameUrlSameLink(links: seq<Link>, a: Link, b: Link)
    requires UrlsDistinct(links)
    requires a in links && b in links && a.url == b.url
    ensures a == b
  {
    var i :| 0 <= i < |links| && links[i] == a;
    var j :| 0 <= j < |links| && links[j] == b;
  }

  /** A stored link does not match itself, so `link_with_same_url` of a stored link is nil. */
  lemma StoredLinkHasNoTwin(links: seq<Link>, l: Link)
    requires WellFormed(links)
    requires l in links
    ensures LinkWithSameUrl(links, l) == None
  {
    forall m | m in links && m.url == l.url
      ensures m.id == l.id
    {
      SameUrlSameLink(links, m, l);
    }
  }

  /** `Link.new(url: link.url).link_with_same_url` is the stored link. */
  lemma UnsavedTwinFound(links: seq<Link>, l: Link, title: Option<string>)
    requires WellFormed(links)
    requires l in links
    ensures LinkWithSameUrl(links, Link(None, l.url, title)) == Some(l)
  {
    var r := LinkWithSameUrl(links, Link(None, l.url, title));
    assert l.id != None;
    SameUrlSameLink(links, r.value, l);
  }

  /** The url validations: `validates_presence_of :url` and `validates_uniqueness_of :url`. */
  function Validate(links: seq<Link>, self: Link): (errors: seq<ValidationError>)
    ensures UrlBlank in errors <==> self.url == ""
    ensures UrlTaken in errors <==> exists l :: l in links && l.url == self.url && l.id != self.id
    ensures errors == [] <==> self.url != "" && forall l :: l in links && l.url == self.url ==> l.id == self.id
  {
    (if self.url == "" then [UrlBlank] else [])
      + (if LinkWithSameUrl(links, self).Some? then [UrlTaken] else [])
  }

  /** A record built by `Link.new`: unsaved, and with no errors because nothing validated it yet. */
  function NewRecord(url: string, title: Option<string>): (rec: Record)
    ensures !Persisted(rec.link) && rec.link.url == url && rec.link.title == title
    ensures rec.errors == []
  {
    Record(Link(None, url, title), [])
  }

  /** `valid?`: replaces the record's errors by those of a fresh validation run. */
  function RunValidations(links: seq<Link>, rec: Record): (v: Record)
    ensures v.link == rec.link
    ensures v.errors == [] <==> rec.link.url != "" && forall l :: l in links && l.url == rec.link.url ==> l.id == rec.link.id
  {
    rec.(errors := Validate(links, rec.link))
  }

  /** `error_due_to_duplicate_url?`: the last validation run failed the uniqueness of url. */
  predicate ErrorDueToDuplicateUrl(rec: Record)
  {
    UrlTaken in rec.errors
  }

  /** After validation the duplicate flag is raised exactly when `link_with_same_url` finds a link. */
  lemma DuplicateFlagIffTwin(links: seq<Link>, rec: Record)
    ensures ErrorDueToDuplicateUrl(RunValidations(links, rec)) <==> LinkWithSameUrl(links, rec.link).Some?
  {
  }

  /** Revalidating a stored link raises no error, in particular not the duplicate flag. */
  lemma StoredLinkRevalidatesClean(links: seq<Link>, l: Link)
    requires WellFormed(links)
    requires l in links
    ensures RunValidations(links, Record(l, [])).errors == []
    ensures !ErrorDueToDuplicateUrl(RunValidations(links, Record(l, [])))
  {
    StoredLinkHasNoTwin(links, l);
  }

  /** `Link.new(url: link.url)`: no flag before `valid?`, the flag after it. */
  lemma DuplicateFlaggedOnlyAfterValidation(links: seq<Link>, l: Link)
    requires l in links && Persisted(l)
    ensures !ErrorDueToDuplicateUrl(NewRecord(l.url, None))
    ensures ErrorDueToDuplicateUrl(RunValidations(links, NewRecord(l.url, None)))
  {
    assert LinkWithSameUrl(links, NewRecord(l.url, None).link).Some?;
  }

  // ---------------------------------------------------------------------------
  // Display name and likes

  /** The title is present when it is given and is not the empty string. */
  predicate TitlePresent(l: Link)
  {
    l.title.Some? && l.title.value != ""
  }

  /** `Link#display_name`: the title when present, otherwise the url. */
  function DisplayName(l: Link): (name: string)
    ensures l.url != "" ==> name != ""
    ensures name == l.url || (l.title.Some? && name == l.title.value)
  {
    if TitlePresent(l) then l.title.value else l.url
  }

  /** The three cases of `display_name`: a title, an empty title and no title. */
  lemma DisplayNameCases(l: Link)
    ensures l.title.Some? && l.title.value != "" ==> DisplayName(l) == l.title.value
    ensures l.title == Some("") ==> DisplayName(l) == l.url
    ensures l.title.None? ==> DisplayName(l) == l.url
  {
  }

  /** `Link#liked_by?(user)`: some like of this link by this user is recorded. */
  predicate LikedBy(likes: seq<Like>, l: Link, userId: nat)
    ensures LikedBy(likes, l, userId) ==> Persisted(l)
  {
    exists k :: k in likes && l.id == Some(k.linkId) && k.userId == userId
  }

  /** Recording a like makes exactly that (link, user) pair liked and leaves every other answer alone. */
  lemma LikeRecorded(likes: seq<Like>, l: Link, userId: nat, m: Link, other: nat)
    requires Persisted(l)
    ensures LikedBy(likes + [Like(l.id.value, userId)], l, userId)
    ensures (m.id != l.id || other != userId) ==>
      (LikedBy(likes + [Like(l.id.value, userId)], m, other) <==> LikedBy(likes, m, other))
  {
    assert Like(l.id.value, userId) in likes + [Like(l.id.value, userId)];
  }
}
