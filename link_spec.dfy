/**
 * The examples of the Link model, each as a client of the store: it builds the rows the
 * example creates and returns what the example inspects, and its postcondition is the
 * example's expectation.
 */
module LinkExamples {
  import opened Wrappers
  import opened LinkModel
  import opened LinkStore

  const ExampleUrl: string := "http://example.com"

  /** `let(:link) { FactoryGirl.create(:link) }` on a fresh store. */
  method CreatedLink() returns (store: Store, link: Link)
    ensures fresh(store) && store.Valid()
    ensures store.links == [link] && store.contents == [] && store.posts == [] && store.likes == []
    ensures Persisted(link) && link.url == ExampleUrl
  {
    store := new Store();
    var rec := store.CreateLink(ExampleUrl, None);
    link := rec.link;
  }

  /** '.unposted includes links with no posts'. */
  method UnpostedIncludesLinksWithNoPosts() returns (unposted: seq<Link>, link: Link)
    ensures unposted == [link]
  {
    var store;
    store, link := CreatedLink();
    unposted := Unposted(store.links, store.contents, store.posts);
  }

  /** '.unposted includes links only posted to twitter' and '... only posted to facebook'. */
  method UnpostedIncludesLinksPostedToOneChannel(channel: Channel) returns (unposted: seq<Link>, link: Link)
    ensures unposted == [link]
  {
    var store;
    store, link := CreatedLink();
    var content := store.CreateContent(link.id.value, channel);
    var post := store.CreatePost(content.id);
    assert !HasPostVia(store.contents, store.posts, link, Other(channel));
    unposted := Unposted(store.links, store.contents, store.posts);
  }

  /** '.unposted does not include links posted to twitter and facebook'. */
  method UnpostedExcludesLinksPostedToBoth() returns (unposted: seq<Link>)
    ensures unposted == []
  {
    var store, link := CreatedLink();
    var twitterContent := store.CreateContent(link.id.value, Twitter);
    var twitterPost := store.CreatePost(twitterContent.id);
    var facebookContent := store.CreateContent(link.id.value, Facebook);
    var facebookPost := store.CreatePost(facebookContent.id);
    assert twitterContent in store.contents && HasPost(store.posts, twitterContent);
    assert facebookContent in store.contents && HasPost(store.posts, facebookContent);
    unposted := Unposted(store.links, store.contents, store.posts);
  }

  /** '#error_due_to_duplicate_url? returns false typically'. */
  method DuplicateFlagFalseTypically() returns (flag: bool)
    ensures !flag
  {
    var store := new Store();
    var rec := store.CreateLink(ExampleUrl, None);
    flag := ErrorDueToDuplicateUrl(rec);
  }

  /** '#error_due_to_duplicate_url? returns true if attempting to create a new link with the same url'. */
  method DuplicateFlagTrueForNewLinkWithSameUrl() returns (flag: bool)
    ensures flag
  {
    var store, link := CreatedLink();
    var newLink := NewRecord(link.url, None);
    newLink := RunValidations(store.links, newLink);
    flag := ErrorDueToDuplicateUrl(newLink);
  }

  /** '#link_with_same_url returns nil typically'. */
  method LinkWithSameUrlNilTypically() returns (found: Option<Link>)
    ensures found == None
  {
    var store, link := CreatedLink();
    found := LinkWithSameUrl(store.links, link);
  }

  /** '#link_with_same_url returns the link that already exists with the same url if present'. */
  method LinkWithSameUrlFindsExisting() returns (found: Option<Link>, link: Link)
    ensures found == Some(link)
  {
    var store;
    store, link := CreatedLink();
    var newLink := NewRecord(link.url, None);
    found := LinkWithSameUrl(store.links, newLink.link);
  }

  /** '#display_name returns the title when present / the URL when the title is an empty string / nil'. */
  method DisplayNames() returns (titled: string, emptyTitled: string, emptyTitledUrl: string, untitled: string, untitledUrl: string)
    ensures titled == "This is the title"
    ensures emptyTitled == emptyTitledUrl && untitled == untitledUrl
  {
    var store := new Store();
    var a := store.CreateLink("http://example.com/1", Some("This is the title"));
    var b := store.CreateLink("http://example.com/2", Some(""));
    var c := store.CreateLink("http://example.com/3", None);
    titled := DisplayName(a.link);
    emptyTitled, emptyTitledUrl := DisplayName(b.link), b.link.url;
    untitled, untitledUrl := DisplayName(c.link), c.link.url;
  }

  /** '#liked_by?(user) returns false if link was not liked by user' and '... true if link was liked by user'. */
  method LikedByBeforeAndAfter(userId: nat) returns (before: bool, after: bool)
    ensures !before && after
  {
    var store, link := CreatedLink();
    before := LikedBy(store.likes, link, userId);
    store.CreateLike(link, userId);
    after := LikedBy(store.likes, link, userId);
  }
}
