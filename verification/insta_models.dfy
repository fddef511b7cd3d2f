/**
  The records of mini_insta/models.py -- profiles, posts, photos, comments, follows and likes --
  and the accessors the templates call on them. A table is a sequence of rows; a row refers to
  another by its primary key.
 */
module InstaModels {
  import opened Wrappers
  import opened Seqs

  datatype Profile = Profile(pk: nat, user: Option<nat>, displayName: string, bioText: string)

  datatype Post = Post(pk: nat, profile: nat, timestamp: int, caption: string)

  /** An uploaded file; its url is None when the storage cannot produce one yet (ValueError). */
  datatype ImageFile = ImageFile(url: Option<string>)

  datatype Photo = Photo(post: nat, imageUrl: string, imageFile: Option<ImageFile>, timestamp: int)

  datatype Comment = Comment(post: nat, profile: nat, timestamp: int, text: string)

  /** followerProfile follows profile. */
  datatype Follow = Follow(profile: nat, followerProfile: nat, timestamp: int)

  datatype Like = Like(post: nat, profile: nat, timestamp: int)

  /** The order of order_by('-timestamp'): newer first. */
  predicate Later(a: int, b: int) {
    a > b
  }

  /** The order of order_by('timestamp'): older first. */
  predicate Earlier(a: int, b: int) {
    a < b
  }

  lemma TimeOrders()
    ensures IsStrictTotalOrder(Later) && IsStrictTotalOrder(Earlier)
  {
  }

  function PostTime(x: Post): int {
    x.timestamp
  }

  function PhotoTime(x: Photo): int {
    x.timestamp
  }

  function CommentTime(x: Comment): int {
    x.timestamp
  }

  /** Follow.objects.filter(profile=p): the rows in which someone follows p. */
  function FollowersRows(follows: seq<Follow>, p: nat): seq<Follow> {
    Keep(follows, (f: Follow) => f.profile == p)
  }

  /** Follow.objects.filter(follower_profile=p): the rows in which p follows someone. */
  function FollowingRows(follows: seq<Follow>, p: nat): seq<Follow> {
    Keep(follows, (f: Follow) => f.followerProfile == p)
  }

  /** get_followers: the follower of each row that follows p, one entry per row. */
  function Followers(follows: seq<Follow>, p: nat): (r: seq<nat>)
    ensures |r| == |FollowersRows(follows, p)|
    ensures forall k :: 0 <= k < |r| ==> r[k] == FollowersRows(follows, p)[k].followerProfile
  {
    var rows := FollowersRows(follows, p);
    seq(|rows|, k requires 0 <= k < |rows| => rows[k].followerProfile)
  }

  /** get_following: the profile followed in each row that p follows from, one entry per row. */
  function Following(follows: seq<Follow>, p: nat): (r: seq<nat>)
    ensures |r| == |FollowingRows(follows, p)|
    ensures forall k :: 0 <= k < |r| ==> r[k] == FollowingRows(follows, p)[k].profile
  {
    var rows := FollowingRows(follows, p);
    seq(|rows|, k requires 0 <= k < |rows| => rows[k].profile)
  }

  /** get_num_followers: the count of rows following p. */
  function NumFollowers(follows: seq<Follow>, p: nat): nat {
    Count(follows, (f: Follow) => f.profile == p)
  }

  /** get_num_following: the count of rows p follows from. */
  function NumFollowing(follows: seq<Follow>, p: nat): nat {
    Count(follows, (f: Follow) => f.followerProfile == p)
  }

  /**
    The counts agree with the lists, and the lists hold exactly the profiles on the other side of
    a follow row: q follows p iff q is among p's followers iff p is among the profiles q follows.
   */
  lemma FollowersMeaning(follows: seq<Follow>, p: nat, q: nat)
    ensures NumFollowers(follows, p) == |Followers(follows, p)|
    ensures NumFollowing(follows, q) == |Following(follows, q)|
    ensures q in Followers(follows, p) <==> exists f :: f in follows && f.profile == p && f.followerProfile == q
    ensures p in Following(follows, q) <==> exists f :: f in follows && f.profile == p && f.followerProfile == q
  {
    var rows := FollowersRows(follows, p);
    if q in Followers(follows, p) {
      var k :| 0 <= k < |Followers(follows, p)| && Followers(follows, p)[k] == q;
      assert rows[k] in rows;
    }
    if exists f :: f in follows && f.profile == p && f.followerProfile == q {
      var f :| f in follows && f.profile == p && f.followerProfile == q;
      assert f in rows;
      var k :| 0 <= k < |rows| && rows[k] == f;
      assert Followers(follows, p)[k] == q;
    }
    var out := FollowingRows(follows, q);
    if p in Following(follows, q) {
      var k :| 0 <= k < |Following(follows, q)| && Following(follows, q)[k] == p;
      assert out[k] in out;
    }
    if exists f :: f in follows && f.profile == p && f.followerProfile == q {
      var f :| f in follows && f.profile == p && f.followerProfile == q;
      assert f in out;
      var k :| 0 <= k < |out| && out[k] == f;
      assert Following(follows, q)[k] == p;
    }
  }

  /** Post.objects.filter(profile=p) */
  function PostsBy(posts: seq<Post>, p: nat): seq<Post> {
    Keep(posts, (x: Post) => x.profile == p)
  }

  /** get_all_posts: p's posts, newest first. */
  function AllPosts(posts: seq<Post>, p: nat): seq<Post> {
    SortBy(PostsBy(posts, p), PostTime, Later)
  }

  /** get_all_posts holds every post of p, each as often as in the table, no other post, newest first. */
  lemma AllPostsMeaning(posts: seq<Post>, p: nat)
    ensures SortedBy(AllPosts(posts, p), PostTime, Later)
    ensures forall x :: multiset(AllPosts(posts, p))[x] == if x.profile == p then multiset(posts)[x] else 0
  {
    TimeOrders();
    SortBySorted(PostsBy(posts, p), PostTime, Later);
    KeepMultiset(posts, (x: Post) => x.profile == p);
  }

  /** Post.objects.filter(profile__in=authors) */
  function PostsAmong(posts: seq<Post>, authors: seq<nat>): seq<Post> {
    Keep(posts, (x: Post) => x.profile in authors)
  }

  /** get_post_feed: the posts of the profiles p follows, newest first. */
  function PostFeed(follows: seq<Follow>, posts: seq<Post>, p: nat): seq<Post> {
    SortBy(PostsAmong(posts, Following(follows, p)), PostTime, Later)
  }

  /** The feed is exactly the posts whose author p follows, each once per table row, newest first. */
  lemma PostFeedMeaning(follows: seq<Follow>, posts: seq<Post>, p: nat)
    ensures SortedBy(PostFeed(follows, posts, p), PostTime, Later)
    ensures forall x :: multiset(PostFeed(follows, posts, p))[x] ==
                          if x.profile in Following(follows, p) then multiset(posts)[x] else 0
    ensures forall x :: x in PostFeed(follows, posts, p) <==>
                          x in posts && exists f :: f in follows && f.followerProfile == p && f.profile == x.profile
  {
    TimeOrders();
    var authors := Following(follows, p);
    SortBySorted(PostsAmong(posts, authors), PostTime, Later);
    KeepMultiset(posts, (x: Post) => x.profile in authors);
    forall x ensures x in PostFeed(follows, posts, p) <==>
                       x in posts && exists f :: f in follows && f.followerProfile == p && f.profile == x.profile
    {
      FollowersMeaning(follows, x.profile, p);
      assert x in PostFeed(follows, posts, p) <==> x in multiset(PostFeed(follows, posts, p));
      assert x in posts <==> x in multiset(posts);
    }
  }

  /** Photo.objects.filter(post=k) */
  function PhotosOf(photos: seq<Photo>, k: nat): seq<Photo> {
    Keep(photos, (x: Photo) => x.post == k)
  }

  /** get_all_photos: the photos of post k, oldest first. */
  function AllPhotos(photos: seq<Photo>, k: nat): seq<Photo> {
    SortBy(PhotosOf(photos, k), PhotoTime, Earlier)
  }

  lemma AllPhotosMeaning(photos: seq<Photo>, k: nat)
    ensures SortedBy(AllPhotos(photos, k), PhotoTime, Earlier)
    ensures forall x :: multiset(AllPhotos(photos, k))[x] == if x.post == k then multiset(photos)[x] else 0
  {
    TimeOrders();
    SortBySorted(PhotosOf(photos, k), PhotoTime, Earlier);
    KeepMultiset(photos, (x: Photo) => x.post == k);
  }

  /** get_all_comments: the comments on post k, oldest first. */
  function AllComments(comments: seq<Comment>, k: nat): seq<Comment> {
    SortBy(Keep(comments, (x: Comment) => x.post == k), CommentTime, Earlier)
  }

  lemma AllCommentsMeaning(comments: seq<Comment>, k: nat)
    ensures SortedBy(AllComments(comments, k), CommentTime, Earlier)
    ensures forall x :: multiset(AllComments(comments, k))[x] == if x.post == k then multiset(comments)[x] else 0
  {
    TimeOrders();
    SortBySorted(Keep(comments, (x: Comment) => x.post == k), CommentTime, Earlier);
    KeepMultiset(comments, (x: Comment) => x.post == k);
  }

  /** get_likes: the likes of post k, in table order. */
  function Likes(likes: seq<Like>, k: nat): (r: seq<Like>)
    ensures forall x :: x in r <==> x in likes && x.post == k
  {
    Keep(likes, (x: Like) => x.post == k)
  }

  /**
    get_image_url: the legacy image_url when it is set; otherwise the uploaded file's url, or ""
    when there is no file or its url is not available.
   */
  function GetImageUrl(photo: Photo): (r: string)
    ensures photo.imageUrl != "" ==> r == photo.imageUrl
    ensures photo.imageUrl == "" ==>
              (r != "" <==> photo.imageFile.Some? && photo.imageFile.value.url.Some? && photo.imageFile.value.url.value != "")
    ensures r != "" && photo.imageUrl == "" ==> photo.imageFile.Some? && r == photo.imageFile.value.url.value
  {
    if photo.imageUrl != "" then photo.imageUrl
    else if photo.imageFile.Some? then
      match photo.imageFile.value.url
      case Some(u) => u
      case None => ""
    else ""
  }

  /** Photo.__str__'s storage kind. */
  function StorageLabel(photo: Photo): (r: string)
    ensures r == "URL" <==> photo.imageUrl != ""
    ensures r == "URL" || r == "File"
  {
    if photo.imageUrl != "" then "URL" else "File"
  }

  /** Comment.__str__'s preview: the text when it has at most 30 characters, else its first 30 and an ellipsis. */
  function CommentPreview(text: string): (r: string)
    ensures |text| <= 30 ==> r == text
    ensures |text| > 30 ==> |r| == 31 && r[..30] == text[..30] && r[30] == '…'
  {
    if |text| > 30 then text[..30] + "…" else text
  }
}
