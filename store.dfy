/**
 * The in-memory store behind `Link`: the links, twitter/facebook contents, posts and
 * likes tables, each a sequence in insertion (= id) order.  Rows are only ever appended;
 * creating a link runs the url validations first and inserts only when they pass, as one
 * atomic step.
 */
module LinkStore {
  import opened Wrappers
  import opened LinkModel

  class Store {
    var links: seq<Link>
    var contents: seq<Content>
    var posts: seq<Post>
    var likes: seq<Like>
    var nextLinkId: nat
    var nextContentId: nat
    var nextPostId: nat

    /** The table invariants: the links table is well formed and every table's ids are ascending and below the next id. */
    ghost predicate Valid()
      reads this
    {
      && WellFormed(links)
      && (forall l :: l in links ==> IdOf(l) < nextLinkId)
      && (forall i, j :: 0 <= i < j < |contents| ==> contents[i].id < contents[j].id)
      && (forall c :: c in contents ==> c.id < nextContentId)
      && (forall i, j :: 0 <= i < j < |posts| ==> posts[i].id < posts[j].id)
      && (forall p :: p in posts ==> p.id < nextPostId)
    }

    /** An empty store; ids start at 1. */
    constructor ()
      ensures Valid()
      ensures links == [] && contents == [] && posts == [] && likes == []
    {
      links, contents, posts, likes := [], [], [], [];
      nextLinkId, nextContentId, nextPostId := 1, 1, 1;
    }

    /**
     * `Link.create(url:, title:)`: validates a new record against the table and saves it
     * when no error is found.  The returned record is the saved row with no errors, or the
     * unsaved record carrying the errors of the validation run.
     */
    method CreateLink(url: string, title: Option<string>) returns (rec: Record)
      requires Valid()
      modifies this
      ensures Valid()
      ensures rec.link.url == url && rec.link.title == title
      ensures rec.errors == RunValidations(old(links), NewRecord(url, title)).errors
      ensures rec.errors == [] <==> url != "" && forall l :: l in old(links) ==> l.url != url
      ensures ErrorDueToDuplicateUrl(rec) <==> exists l :: l in old(links) && l.url == url
      ensures rec.errors == [] ==> Persisted(rec.link) && links == old(links) + [rec.link]
      ensures rec.errors == [] ==> forall m :: m in old(links) ==> m.id != rec.link.id
      ensures rec.errors != [] ==> !Persisted(rec.link) && links == old(links)
      ensures contents == old(contents) && posts == old(posts) && likes == old(likes)
    {
      rec := RunValidations(links, NewRecord(url, title));
      if rec.errors == [] {
        var l := Link(Some(nextLinkId), url, title);
        AppendKeepsWellFormed(links, l);
        links := links + [l];
        nextLinkId := nextLinkId + 1;
        rec := Record(l, []);
      }
    }

    /** `FactoryGirl.create(:twitter_content / :facebook_content, link: l)`: appends a content row. */
    method CreateContent(linkId: nat, channel: Channel) returns (c: Content)
      requires Valid()
      modifies this
      ensures Valid()
      ensures c.linkId == linkId && c.channel == channel
      ensures forall d :: d in old(contents) ==> d.id != c.id
      ensures contents == old(contents) + [c]
      ensures links == old(links) && posts == old(posts) && likes == old(likes)
    {
      c := Content(nextContentId, linkId, channel);
      contents := contents + [c];
      nextContentId := nextContentId + 1;
    }

    /** `FactoryGirl.create(:post, content: c)`: appends a post row. */
    method CreatePost(contentId: nat) returns (p: Post)
      requires Valid()
      modifies this
      ensures Valid()
      ensures p.contentId == contentId
      ensures forall q :: q in old(posts) ==> q.id != p.id
      ensures posts == old(posts) + [p]
      ensures links == old(links) && contents == old(contents) && likes == old(likes)
    {
      p := Post(nextPostId, contentId);
      posts := posts + [p];
      nextPostId := nextPostId + 1;
    }

    /** `FactoryGirl.create(:like, item: l, user: u)`: records a like; afterwards `liked_by?` holds for that pair. */
    method CreateLike(l: Link, userId: nat)
      requires Valid()
      requires Persisted(l)
      modifies this
      ensures Valid()
      ensures likes == old(likes) + [Like(l.id.value, userId)]
      ensures LikedBy(likes, l, userId)
      ensures forall m: Link, u: nat :: (m.id != l.id || u != userId) ==>
        (LikedBy(likes, m, u) <==> LikedBy(old(likes), m, u))
      ensures links == old(links) && contents == old(contents) && posts == old(posts)
    {
      likes := likes + [Like(l.id.value, userId)];
      forall m: Link, u: nat | true
        ensures (m.id != l.id || u != userId) ==> (LikedBy(likes, m, u) <==> LikedBy(old(likes), m, u))
      {
        LikeRecorded(old(likes), l, userId, m, u);
      }
    }
  }

  /** Every reachable store has pairwise-distinct, present urls. */
  lemma ValidStoreUrlsUnique(s: Store, a: Link, b: Link)
    requires s.Valid()
    requires a in s.links && b in s.links && a != b
    ensures a.url != b.url && a.url != ""
  {
    if a.url == b.url {
      SameUrlSameLink(s.links, a, b);
    }
  }
}
