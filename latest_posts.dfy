/**
 * The "Latest Posts" panel of the home page, reduced to what it computes:
 * which of the four states it shows, and for each of the first three posts
 * the excerpt, the link, the author's initials and the author's name.
 */
module LatestPosts {
  import opened Wrappers
  import opened JsString

  /** The author columns joined to a post. */
  datatype Author = Author(firstName: Option<string>, lastName: Option<string>, email: string)

  datatype Post = Post(id: nat, title: string, content: string, slug: string, createdBy: Option<Author>)

  const DefaultMaxLength: nat := 200
  const Ellipsis := "..."
  const CardLimit: nat := 3

  /**
   * `truncateContent(content, maxLength)`: short content is shown whole,
   * longer content is cut to `maxLength` characters and marked with "...".
   */
  function TruncateContent(content: string, maxLength: nat): (r: string)
    ensures |content| <= maxLength ==> r == content
    ensures |content| > maxLength ==> |r| == maxLength + |Ellipsis| && r[..maxLength] == content[..maxLength] && r[maxLength..] == Ellipsis
    ensures |r| <= maxLength + |Ellipsis|
  {
    if |content| <= maxLength then content else content[..maxLength] + Ellipsis
  }

  /** The excerpt of a card: `truncateContent` with its default length. */
  function Excerpt(content: string): (r: string)
    ensures |r| <= DefaultMaxLength + |Ellipsis|
  {
    TruncateContent(content, DefaultMaxLength)
  }

  /** Truncating an excerpt again changes nothing: a cut excerpt is cut at the same place. */
  lemma TruncateIdempotent(content: string, maxLength: nat)
    ensures TruncateContent(TruncateContent(content, maxLength), maxLength) == TruncateContent(content, maxLength)
  {
    if |content| > maxLength {
      var r := TruncateContent(content, maxLength);
      assert r[..maxLength] == content[..maxLength];
    }
  }

  /** The excerpt starts with the content, as far as the content goes up to `maxLength`. */
  lemma TruncateKeepsPrefix(content: string, maxLength: nat, n: nat)
    requires n <= |content| && n <= maxLength
    ensures n <= |TruncateContent(content, maxLength)|
    ensures TruncateContent(content, maxLength)[..n] == content[..n]
  {
    if |content| > maxLength {
      var r := TruncateContent(content, maxLength);
      assert r[..n] == r[..maxLength][..n];
      assert content[..n] == content[..maxLength][..n];
    }
  }

  /** `name?.charAt(0) ?? ""`: the first character, or nothing for a missing or empty name. */
  function FirstChar(name: Option<string>): (r: string)
    ensures |r| <= 1
    ensures r != [] <==> name.Some? && name.value != []
    ensures r != [] ==> r[0] == name.value[0]
  {
    if name.Some? && name.value != [] then [name.value[0]] else []
  }

  /** `getInitials`: the upper-cased first characters of the names, or "U" when both are missing or empty. */
  function GetInitials(firstName: Option<string>, lastName: Option<string>): (r: string)
    ensures 1 <= |r| <= 2
    ensures forall i :: 0 <= i < |r| ==> !('a' <= r[i] <= 'z')
    ensures FirstChar(firstName) + FirstChar(lastName) == [] ==> r == "U"
    ensures firstName.Some? && firstName.value != [] ==> r[0] == UpperChar(firstName.value[0])
    ensures lastName.Some? && lastName.value != [] ==> r[|r| - 1] == UpperChar(lastName.value[0])
    ensures |r| == 2 <==> FirstChar(firstName) != [] && FirstChar(lastName) != []
  {
    var initials := Upper(FirstChar(firstName) + FirstChar(lastName));
    if initials == [] then "U" else initials
  }

  /** A name the truthiness test accepts: present and not empty. */
  predicate Given(name: Option<string>) {
    name.Some? && name.value != []
  }

  /** `getAuthorName`: "first last" when both names are given, the email otherwise. */
  function GetAuthorName(author: Author): (r: string)
    ensures Given(author.firstName) && Given(author.lastName) ==>
              && |r| == |author.firstName.value| + 1 + |author.lastName.value|
              && r[..|author.firstName.value|] == author.firstName.value
              && r[|author.firstName.value|] == ' '
              && r[|author.firstName.value| + 1..] == author.lastName.value
    ensures !(Given(author.firstName) && Given(author.lastName)) ==> r == author.email
  {
    if Given(author.firstName) && Given(author.lastName) then author.firstName.value + " " + author.lastName.value
    else author.email
  }

  /** When the first name has no blank, the author name splits back at its first blank into the two names. */
  lemma {:induction false} AuthorNameSplits(author: Author)
    requires Given(author.firstName) && Given(author.lastName) && ' ' !in author.firstName.value
    ensures var r := GetAuthorName(author);
            exists i :: 0 <= i < |r| && r[i] == ' ' && ' ' !in r[..i]
                        && r[..i] == author.firstName.value && r[i + 1..] == author.lastName.value
  {
    var r := GetAuthorName(author);
    var i := |author.firstName.value|;
    assert r[..i] == author.firstName.value;
    assert r[i] == ' ' && ' ' !in r[..i] && r[i + 1..] == author.lastName.value;
  }

  /** `posts.slice(0, 3)`: the first three posts, in list order. */
  function LatestThree(posts: seq<Post>): (r: seq<Post>)
    ensures |r| == if |posts| < CardLimit then |posts| else CardLimit
    ensures r <= posts
  {
    if |posts| < CardLimit then posts else posts[..CardLimit]
  }

  /** The link of a card: `/post/`, the id in decimal digits, `/` and the slug. */
  function PostHref(id: nat, slug: string): (r: string)
    ensures "/post/" <= r && |r| >= |"/post/"| + 2 + |slug|
    ensures r[|r| - |slug|..] == slug && r[|r| - |slug| - 1] == '/'
    ensures forall k :: |"/post/"| <= k < |r| - |slug| - 1 ==> IsDigit(r[k])
  {
    var digits := NatToString(id);
    assert forall k :: 6 <= k < 6 + |digits| ==> ("/post/" + digits + "/" + slug)[k] == digits[k - 6];
    "/post/" + digits + "/" + slug
  }

  /** Different posts link differently: the link determines both the id and the slug. */
  lemma {:induction false} PostHrefInjective(id1: nat, slug1: string, id2: nat, slug2: string)
    requires PostHref(id1, slug1) == PostHref(id2, slug2)
    ensures id1 == id2 && slug1 == slug2
  {
    var r := PostHref(id1, slug1);
    assert !IsDigit(r[|r| - |slug1| - 1]) && !IsDigit(r[|r| - |slug2| - 1]);
    assert |slug1| == |slug2|;
    var n1, n2 := NatToString(id1), NatToString(id2);
    assert n1 == r[6..|r| - |slug1| - 1] == n2;
    NatToStringInjective(id1, id2);
  }

  /** What one post card shows, apart from the formatted date. */
  datatype Card = Card(title: string, excerpt: string, href: string, initials: string, authorName: string)

  /** The card of one post; a post without an author shows "?" and "Unknown Author". */
  function CardOf(post: Post): (c: Card)
    ensures c.title == post.title && c.excerpt == Excerpt(post.content) && c.href == PostHref(post.id, post.slug)
    ensures post.createdBy.None? ==> c.initials == "?" && c.authorName == "Unknown Author"
    ensures post.createdBy.Some? ==>
              c.initials == GetInitials(post.createdBy.value.firstName, post.createdBy.value.lastName)
              && c.authorName == GetAuthorName(post.createdBy.value)
  {
    match post.createdBy
    case None => Card(post.title, Excerpt(post.content), PostHref(post.id, post.slug), "?", "Unknown Author")
    case Some(author) =>
      Card(post.title, Excerpt(post.content), PostHref(post.id, post.slug),
           GetInitials(author.firstName, author.lastName), GetAuthorName(author))
  }

  /** The state of the `post.getAll` query. */
  datatype Query = Pending | QueryError(message: string) | Loaded(posts: Option<seq<Post>>)

  /** What the panel shows. */
  datatype View = LoadingSkeleton | ErrorMessage(message: string) | NoPostsYet | PostCards(cards: seq<Card>)

  /** `LatestPosts()`: the skeleton, the error, the empty state, or the cards of the first three posts. */
  function Render(q: Query): (v: View)
    ensures q.Pending? <==> v.LoadingSkeleton?
    ensures q.QueryError? <==> v.ErrorMessage?
    ensures q.QueryError? ==> v.message == q.message
    ensures v.NoPostsYet? <==> q.Loaded? && (q.posts.None? || q.posts.value == [])
    ensures v.PostCards? ==>
              var posts := q.posts.value;
              && 1 <= |v.cards| <= CardLimit
              && |v.cards| == |LatestThree(posts)|
              && forall i :: 0 <= i < |v.cards| ==> v.cards[i] == CardOf(posts[i])
  {
    match q
    case Pending => LoadingSkeleton
    case QueryError(message) => ErrorMessage(message)
    case Loaded(posts) =>
      if posts.None? || posts.value == [] then NoPostsYet
      else PostCards(seq(|LatestThree(posts.value)|, i requires 0 <= i < |LatestThree(posts.value)| => CardOf(LatestThree(posts.value)[i])))
  }

  /** Posts after the third never reach the panel: changing them changes nothing shown. */
  lemma OnlyFirstThreeMatter(posts: seq<Post>, more: seq<Post>)
    requires |posts| >= CardLimit
    ensures Render(Loaded(Some(posts + more))) == Render(Loaded(Some(posts)))
  {
    assert LatestThree(posts + more) == LatestThree(posts);
  }
}
