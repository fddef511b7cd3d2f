/**
  The views of mini_insta/views.py: the flags the detail pages compute, the owner guards of the
  update and delete views, the feed and the search page, and the views that change the tables --
  follow, unfollow, like, unlike and creating a post with its photos.
 */
module InstaViews {
  import opened Wrappers
  import opened Text
  import opened Seqs
  import opened Tables
  import opened InstaModels
  import opened InstaAuth

  /** get_object_or_404(Profile, pk=pk): the first profile with that key. */
  function FindProfile(profiles: seq<Profile>, pk: nat): (r: Option<Profile>)
    ensures r.None? <==> forall x :: x in profiles ==> x.pk != pk
    ensures r.Some? ==> r.value in profiles && r.value.pk == pk
  {
    var m := Keep(profiles, (x: Profile) => x.pk == pk);
    if m == [] then None
    else
      assert m[0] in m;
      Some(m[0])
  }

  /** get_object_or_404(Post, pk=pk): the first post with that key. */
  function FindPost(posts: seq<Post>, pk: nat): (r: Option<Post>)
    ensures r.None? <==> forall x :: x in posts ==> x.pk != pk
    ensures r.Some? ==> r.value in posts && r.value.pk == pk
  {
    var m := Keep(posts, (x: Post) => x.pk == pk);
    if m == [] then None
    else
      assert m[0] in m;
      Some(m[0])
  }

  /** The follow rows from follower to followed. */
  function FollowsPair(follower: nat, followed: nat): Follow -> bool {
    (f: Follow) => f.followerProfile == follower && f.profile == followed
  }

  /** The like rows of profile on post. */
  function LikesPair(profile: nat, post: nat): Like -> bool {
    (l: Like) => l.profile == profile && l.post == post
  }

  function FollowKey(f: Follow): (nat, nat) {
    (f.followerProfile, f.profile)
  }

  function LikeKey(l: Like): (nat, nat) {
    (l.profile, l.post)
  }

  predicate NoSelfFollow(follows: seq<Follow>) {
    forall f :: f in follows ==> f.followerProfile != f.profile
  }

  /** No two follow rows join the same pair of profiles. */
  predicate UniqueFollows(follows: seq<Follow>) {
    forall i, j :: 0 <= i < j < |follows| ==> FollowKey(follows[i]) != FollowKey(follows[j])
  }

  /** No two likes by the same profile on the same post. */
  predicate UniqueLikes(likes: seq<Like>) {
    forall i, j :: 0 <= i < j < |likes| ==> LikeKey(likes[i]) != LikeKey(likes[j])
  }

  /** Nobody likes their own post. */
  predicate NoOwnLikes(likes: seq<Like>, posts: seq<Post>) {
    forall l, x :: l in likes && x in posts && x.pk == l.post ==> x.profile != l.profile
  }

  // ---------------------------------------------------------------------------------------------
  // Context flags of ProfileDetailView and PostDetailView

  datatype ProfileFlags = ProfileFlags(canUpdate: bool, canFollow: bool, isFollowing: bool)

  /** ProfileDetailView.get_context_data, for the current user (None when anonymous). */
  function ProfileContext(profiles: seq<Profile>, follows: seq<Follow>, user: Option<nat>, viewed: Profile): ProfileFlags {
    var me := LoggedInProfile(profiles, user);
    var canFollow := me.Some? && me.value.pk != viewed.pk;
    ProfileFlags(
      me.Some? && viewed.user == user,
      canFollow,
      canFollow && exists f :: f in follows && FollowsPair(me.value.pk, viewed.pk)(f))
  }

  /**
    can_follow holds iff the user has a profile other than the one viewed; is_following is false
    when not logged in or on one's own page, and otherwise says whether the viewed profile is among
    the profiles one follows.
   */
  lemma ProfileContextMeaning(profiles: seq<Profile>, follows: seq<Follow>, user: Option<nat>, viewed: Profile)
    ensures var flags := ProfileContext(profiles, follows, user, viewed);
            var me := LoggedInProfile(profiles, user);
            && (flags.canFollow <==> me.Some? && me.value.pk != viewed.pk)
            && (flags.isFollowing ==> flags.canFollow)
            && (flags.canFollow ==> (flags.isFollowing <==> viewed.pk in Following(follows, me.value.pk)))
            && (flags.canUpdate ==> user.Some? && viewed.user == user)
  {
    var me := LoggedInProfile(profiles, user);
    LoggedInProfileMeaning(profiles, user);
    if me.Some? {
      FollowersMeaning(follows, viewed.pk, me.value.pk);
    }
  }

  datatype PostFlags = PostFlags(canEditPost: bool, canLike: bool, hasLiked: bool)

  /** PostDetailView.get_context_data, for the current user (None when anonymous). */
  function PostContext(profiles: seq<Profile>, likes: seq<Like>, user: Option<nat>, post: Post): PostFlags {
    var me := LoggedInProfile(profiles, user);
    PostFlags(
      me.Some? && post.profile == me.value.pk,
      me.Some? && post.profile != me.value.pk,
      me.Some? && exists l :: l in likes && LikesPair(me.value.pk, post.pk)(l))
  }

  /** Editing is for the author, liking for everyone else who is logged in: never both, and one of them whenever logged in. */
  lemma PostContextMeaning(profiles: seq<Profile>, likes: seq<Like>, user: Option<nat>, post: Post)
    ensures var flags := PostContext(profiles, likes, user, post);
            && !(flags.canEditPost && flags.canLike)
            && (flags.canEditPost || flags.canLike <==> LoggedInProfile(profiles, user).Some?)
            && (flags.hasLiked ==> user.Some?)
  {
  }

  // ---------------------------------------------------------------------------------------------
  // Owner guards of the update and delete views

  /** handle_no_permission() */
  datatype Denied = NoPermission

  /** UpdateProfileView.get_object: the logged-in profile, if it belongs to the requesting user. */
  function ProfileToUpdate(profiles: seq<Profile>, user: Option<nat>): Result<Profile, Denied> {
    var obj := LoggedInProfile(profiles, user);
    if obj.None? || obj.value.user != user then Err(NoPermission) else Ok(obj.value)
  }

  /** A user can only ever update a profile of their own, and can whenever they have one. */
  lemma ProfileToUpdateMeaning(profiles: seq<Profile>, user: Option<nat>)
    ensures var r := ProfileToUpdate(profiles, user);
            && (r.Ok? <==> user.Some? && exists p :: p in profiles && p.user == user)
            && (r.Ok? ==> r.value in profiles && r.value.user == user)
  {
    LoggedInProfileMeaning(profiles, user);
  }

  /** UpdatePostView.get_object and DeletePostView.get_object: the post, if the logged-in profile wrote it. */
  function PostToChange(profiles: seq<Profile>, user: Option<nat>, post: Post): Result<Post, Denied> {
    var me := LoggedInProfile(profiles, user);
    if me.None? || post.profile != me.value.pk then Err(NoPermission) else Ok(post)
  }

  /** Changing a post is allowed exactly when the detail page offers editing it: to its author alone. */
  lemma PostToChangeMeaning(profiles: seq<Profile>, likes: seq<Like>, user: Option<nat>, post: Post)
    ensures PostToChange(profiles, user, post).Ok? <==> PostContext(profiles, likes, user, post).canEditPost
    ensures PostToChange(profiles, user, post).Ok? ==>
              exists p :: p in profiles && p.user == user && user.Some? && p.pk == post.profile
  {
    LoggedInProfileMeaning(profiles, user);
  }

  // ---------------------------------------------------------------------------------------------
  // Feed and search

  /**
    PostFeedListView.get_queryset: nothing for a user without a profile, else that profile's feed.
    The view is behind AuthMixin, whose LoginRequiredMixin redirects an anonymous request to the
    login page before get_queryset runs, so a user is always logged in here.
   */
  function Feed(profiles: seq<Profile>, follows: seq<Follow>, posts: seq<Post>, user: Option<nat>): (r: seq<Post>)
    requires user.Some?
    ensures LoggedInProfile(profiles, user).None? ==> r == []
    ensures SortedBy(r, PostTime, Later)
    ensures LoggedInProfile(profiles, user).Some? ==>
              var me := LoggedInProfile(profiles, user).value.pk;
              forall x :: x in r <==> x in posts && exists f :: f in follows && f.profile == x.profile && f.followerProfile == me
  {
    match LoggedInProfile(profiles, user)
    case None => []
    case Some(me) =>
      PostFeedMeaning(follows, posts, me.pk);
      PostFeed(follows, posts, me.pk)
  }

  datatype SearchPage =
    | SearchForm(profile: Option<Profile>)
    | LoginRedirect                       // LoginRequiredMixin sent an anonymous request to log in
    | SearchResults(profile: Option<Profile>, query: string, posts: seq<Post>, matchingProfiles: seq<Profile>)

  /** Post.objects.filter(caption__icontains=q) */
  function CaptionMatches(posts: seq<Post>, q: string): seq<Post> {
    Keep(posts, (x: Post) => ContainsIgnoreCase(x.caption, q))
  }

  /** Profile.objects.filter(Q(display_name__icontains=q) | Q(bio_text__icontains=q)) */
  function ProfileMatches(profiles: seq<Profile>, q: string): seq<Profile> {
    Keep(profiles, (p: Profile) => ContainsIgnoreCase(p.displayName, q) || ContainsIgnoreCase(p.bioText, q))
  }

  /**
    SearchView: the query parameter stripped of surrounding whitespace; an empty query shows the
    search form to anyone; any other query goes on to the dispatch of AuthMixin, which redirects an
    anonymous request to the login page and otherwise shows the matching posts newest first and
    the matching profiles.
   */
  function Search(profiles: seq<Profile>, posts: seq<Post>, user: Option<nat>, query: Option<string>): SearchPage {
    var me := LoggedInProfile(profiles, user);
    var q := Strip(if query.Some? then query.value else "");
    if q == "" then SearchForm(me)
    else if user.None? then LoginRedirect
    else SearchResults(me, q, SortBy(CaptionMatches(posts, q), PostTime, Later), ProfileMatches(profiles, q))
  }

  /**
    No search runs for a missing or blank query; otherwise the posts are every post whose caption
    contains the query in any letter case, each as often as in the table, newest first, and the
    profiles are those whose name or bio contains it.
   */
  lemma SearchMeaning(profiles: seq<Profile>, posts: seq<Post>, user: Option<nat>, query: Option<string>)
    ensures var page := Search(profiles, posts, user, query);
            page.SearchForm? <==> query.None? || Strip(query.value) == ""
    ensures var page := Search(profiles, posts, user, query);
            page.LoginRedirect? <==> query.Some? && Strip(query.value) != "" && user.None?
    ensures var page := Search(profiles, posts, user, query);
            page.SearchResults? ==>
              && page.query == Strip(query.value) && page.query != ""
              && SortedBy(page.posts, PostTime, Later)
              && (forall x :: multiset(page.posts)[x] == if ContainsIgnoreCase(x.caption, page.query) then multiset(posts)[x] else 0)
              && (forall p :: p in page.matchingProfiles <==>
                               p in profiles && (ContainsIgnoreCase(p.displayName, page.query) || ContainsIgnoreCase(p.bioText, page.query)))
  {
    var q := Strip(if query.Some? then query.value else "");
    if query.None? {
      assert Strip("") == [];
    }
    if q != "" {
      TimeOrders();
      SortBySorted(CaptionMatches(posts, q), PostTime, Later);
      KeepMultiset(posts, (x: Post) => ContainsIgnoreCase(x.caption, q));
    }
  }

  // ---------------------------------------------------------------------------------------------
  // Table updates of FollowView, UnfollowView, LikeView and UnlikeView, as functions of the rows

  /** Follow rows after follower follows followed: unchanged if such a row exists, else one row added. */
  function Followed(follows: seq<Follow>, follower: nat, followed: nat, now: int): seq<Follow> {
    if exists f :: f in follows && FollowsPair(follower, followed)(f) then follows
    else follows + [Follow(followed, follower, now)]
  }

  /** FollowView.post: get_or_create of the pair, unless not logged in or following oneself. */
  function FollowRows(follows: seq<Follow>, me: Option<Profile>, other: Profile, now: int): seq<Follow> {
    if me.Some? && me.value.pk != other.pk then Followed(follows, me.value.pk, other.pk, now) else follows
  }

  /** UnfollowView.post: every row from me to other deleted, when logged in. */
  function UnfollowRows(follows: seq<Follow>, me: Option<Profile>, other: Profile): seq<Follow> {
    if me.Some? then DeleteWhere(follows, FollowsPair(me.value.pk, other.pk)) else follows
  }

  /** Like rows after profile likes post: unchanged if such a like exists, else one like added. */
  function Liked(likes: seq<Like>, profile: nat, post: nat, now: int): seq<Like> {
    if exists l :: l in likes && LikesPair(profile, post)(l) then likes
    else likes + [Like(post, profile, now)]
  }

  /** LikeView.post: get_or_create of the like, unless not logged in or the post is one's own. */
  function LikeRows(likes: seq<Like>, me: Option<Profile>, post: Post, now: int): seq<Like> {
    if me.Some? && post.profile != me.value.pk then Liked(likes, me.value.pk, post.pk, now) else likes
  }

  /** UnlikeView.post: every like of me on post deleted, when logged in. */
  function UnlikeRows(likes: seq<Like>, me: Option<Profile>, post: Post): seq<Like> {
    if me.Some? then DeleteWhere(likes, LikesPair(me.value.pk, post.pk)) else likes
  }

  /** With follow pairs unique, get_or_create of a pair does not raise and does what Followed says. */
  lemma FollowGetOrCreate(follows: seq<Follow>, follower: nat, followed: nat, now: int)
    requires UniqueFollows(follows)
    ensures GetOrCreate(follows, FollowsPair(follower, followed), Follow(followed, follower, now)).Ok?
    ensures GetOrCreate(follows, FollowsPair(follower, followed), Follow(followed, follower, now)).value.0 ==
              Followed(follows, follower, followed, now)
  {
    UniqueLookup(follows, FollowKey, FollowsPair(follower, followed));
  }

  /** With likes unique, get_or_create of a like does not raise and does what Liked says. */
  lemma LikeGetOrCreate(likes: seq<Like>, profile: nat, post: nat, now: int)
    requires UniqueLikes(likes)
    ensures GetOrCreate(likes, LikesPair(profile, post), Like(post, profile, now)).Ok?
    ensures GetOrCreate(likes, LikesPair(profile, post), Like(post, profile, now)).value.0 ==
              Liked(likes, profile, post, now)
  {
    UniqueLookup(likes, LikeKey, LikesPair(profile, post));
  }

  /**
    Following never creates a self-follow and keeps pairs unique; afterwards the pair has exactly
    one row, and following again changes nothing.
   */
  lemma FollowRowsMeaning(follows: seq<Follow>, me: Option<Profile>, other: Profile, now: int, later: int)
    requires NoSelfFollow(follows) && UniqueFollows(follows)
    ensures var after := FollowRows(follows, me, other, now);
            && NoSelfFollow(after) && UniqueFollows(after)
            && (me.Some? && me.value.pk != other.pk ==> Count(after, FollowsPair(me.value.pk, other.pk)) == 1)
            && FollowRows(after, me, other, later) == after
  {
    if me.Some? && me.value.pk != other.pk {
      FollowedKeepsValid(follows, me.value.pk, other.pk, now);
    }
  }

  /** The row Followed adds joins two different profiles, is the only row of its pair, and is found again next time. */
  lemma FollowedKeepsValid(follows: seq<Follow>, follower: nat, followed: nat, now: int)
    requires NoSelfFollow(follows) && UniqueFollows(follows) && follower != followed
    ensures var after := Followed(follows, follower, followed, now);
            && NoSelfFollow(after) && UniqueFollows(after)
            && Count(after, FollowsPair(follower, followed)) == 1
            && exists f :: f in after && FollowsPair(follower, followed)(f)
  {
    var pair := FollowsPair(follower, followed);
    var after := Followed(follows, follower, followed, now);
    var row := Follow(followed, follower, now);
    if !exists f :: f in follows && pair(f) {
      forall i, j | 0 <= i < j < |after| ensures FollowKey(after[i]) != FollowKey(after[j]) {
        if j == |follows| {
          assert after[i] in follows;
        }
      }
      KeepAppend(follows, [row], pair);
      KeepNone(follows, pair);
      assert Keep([row], pair) == [row];
      assert row in after && pair(row);
    } else {
      UniqueLookup(follows, FollowKey, pair);
      var f :| f in follows && pair(f);
      assert f in Keep(follows, pair);
    }
  }

  /** Unfollowing removes every row from me to other and keeps every other row, as often as it was there. */
  lemma UnfollowRowsMeaning(follows: seq<Follow>, me: Profile, other: Profile)
    ensures var after := UnfollowRows(follows, Some(me), other);
            && (forall f :: f in after ==> !(f.followerProfile == me.pk && f.profile == other.pk))
            && (forall f: Follow :: !(f.followerProfile == me.pk && f.profile == other.pk) ==> multiset(after)[f] == multiset(follows)[f])
  {
    var pair := FollowsPair(me.pk, other.pk);
    var after := UnfollowRows(follows, Some(me), other);
    forall f ensures f in after ==> !pair(f) {
    }
    forall f | !pair(f) ensures multiset(after)[f] == multiset(follows)[f] {
    }
  }

  /** Liking never likes one's own post, and liking again changes nothing. */
  lemma LikeRowsMeaning(likes: seq<Like>, me: Option<Profile>, post: Post, now: int, later: int)
    requires UniqueLikes(likes)
    ensures var after := LikeRows(likes, me, post, now);
            && (forall l :: l in after && l !in likes ==> me.Some? && l.profile == me.value.pk && l.post == post.pk && post.profile != l.profile)
            && LikeRows(after, me, post, later) == after
  {
    if me.Some? && post.profile != me.value.pk {
      var pair := LikesPair(me.value.pk, post.pk);
      var row := Like(post.pk, me.value.pk, now);
      assert pair(row);
    }
  }

  /** Unliking removes every like of me on the post and keeps every other like. */
  lemma UnlikeRowsMeaning(likes: seq<Like>, me: Profile, post: Post)
    ensures var after := UnlikeRows(likes, Some(me), post);
            && (forall l :: l in after ==> !(l.profile == me.pk && l.post == post.pk))
            && (forall l: Like :: !(l.profile == me.pk && l.post == post.pk) ==> multiset(after)[l] == multiset(likes)[l])
  {
    var pair := LikesPair(me.pk, post.pk);
    var after := UnlikeRows(likes, Some(me), post);
    forall l ensures l in after ==> !pair(l) {
    }
    forall l | !pair(l) ensures multiset(after)[l] == multiset(likes)[l] {
    }
  }

  /** The photos CreatePostView adds for the uploaded files, one per file, in upload order. */
  function NewPhotos(post: nat, files: seq<ImageFile>, now: int): (r: seq<Photo>)
    ensures |r| == |files|
    ensures forall k :: 0 <= k < |r| ==> r[k].post == post && r[k].imageFile == Some(files[k]) && r[k].imageUrl == ""
  {
    seq(|files|, k requires 0 <= k < |files| => Photo(post, "", Some(files[k]), now))
  }

  /** The loop of CreatePostView that makes one Photo per uploaded file. */
  method UploadedPhotos(post: nat, files: seq<ImageFile>, now: int) returns (added: seq<Photo>)
    ensures added == NewPhotos(post, files, now)
  {
    added := [];
    for i := 0 to |files|
      invariant added == NewPhotos(post, files[..i], now)
    {
      assert NewPhotos(post, files[..i + 1], now) == added + [Photo(post, "", Some(files[i]), now)];
      added := added + [Photo(post, "", Some(files[i]), now)];
    }
    assert files[..|files|] == files;
  }

  /**
    Keys are unique, rows refer only to posts that have been created (keys below next), and the
    rules the views enforce hold: no self-follow, no repeated follow or like, no like on one's own post.
   */
  predicate Consistent(profiles: seq<Profile>, posts: seq<Post>, photos: seq<Photo>, follows: seq<Follow>,
                       likes: seq<Like>, next: nat)
  {
    && (forall i, j :: 0 <= i < j < |profiles| ==> profiles[i].pk != profiles[j].pk)
    && (forall i, j :: 0 <= i < j < |posts| ==> posts[i].pk != posts[j].pk)
    && (forall x :: x in posts ==> x.pk < next)
    && (forall x :: x in photos ==> x.post < next)
    && (forall l :: l in likes ==> l.post < next)
    && NoSelfFollow(follows) && UniqueFollows(follows)
    && UniqueLikes(likes) && NoOwnLikes(likes, posts)
  }

  // ---------------------------------------------------------------------------------------------
  // The tables

  /**
    The mini_insta tables that the views read and change. Every view that changes them is behind
    AuthMixin, whose LoginRequiredMixin redirects an anonymous request to the login page before the
    view runs; so each method here is called for a logged-in user, who may still have no profile.
   */
  class InstaDb {
    var profiles: seq<Profile>
    var posts: seq<Post>
    var photos: seq<Photo>
    var follows: seq<Follow>
    var likes: seq<Like>
    /** The primary key the next post receives. */
    var nextPostPk: nat

    /** The tables are consistent (see Consistent). */
    ghost predicate Valid()
      reads this
    {
      Consistent(profiles, posts, photos, follows, likes, nextPostPk)
    }

    constructor (profiles: seq<Profile>)
      requires forall i, j :: 0 <= i < j < |profiles| ==> profiles[i].pk != profiles[j].pk
      ensures Valid()
      ensures this.profiles == profiles && posts == [] && photos == [] && follows == [] && likes == []
    {
      this.profiles := profiles;
      posts := [];
      photos := [];
      follows := [];
      likes := [];
      nextPostPk := 1;
    }

    /** FollowView.post: 404 for an unknown profile; otherwise follow it unless it is oneself. */
    method FollowProfile(user: Option<nat>, pk: nat, now: int) returns (r: Result<(), DbError>)
      requires user.Some? && Valid()
      modifies this
      ensures Valid()
      ensures profiles == old(profiles) && posts == old(posts) && photos == old(photos)
      ensures likes == old(likes) && nextPostPk == old(nextPostPk)
      ensures r.Err? <==> FindProfile(profiles, pk).None?
      ensures r.Err? ==> r.error == NotFound && follows == old(follows)
      ensures r.Ok? ==> follows == FollowRows(old(follows), LoggedInProfile(profiles, user), FindProfile(profiles, pk).value, now)
    {
      var me := LoggedInProfile(profiles, user);
      var found := FindProfile(profiles, pk);
      if found.None? {
        return Err(NotFound);
      }
      var other := found.value;
      if me.Some? && me.value.pk != other.pk {
        FollowGetOrCreate(follows, me.value.pk, other.pk, now);
        FollowRowsMeaning(follows, me, other, now, now);
        var created := GetOrCreate(follows, FollowsPair(me.value.pk, other.pk), Follow(other.pk, me.value.pk, now));
        follows := created.value.0;
      }
      r := Ok(());
    }

    /** UnfollowView.post: 404 for an unknown profile; otherwise delete one's follow rows to it. */
    method UnfollowProfile(user: Option<nat>, pk: nat) returns (r: Result<(), DbError>)
      requires user.Some? && Valid()
      modifies this
      ensures Valid()
      ensures profiles == old(profiles) && posts == old(posts) && photos == old(photos)
      ensures likes == old(likes) && nextPostPk == old(nextPostPk)
      ensures r.Err? <==> FindProfile(profiles, pk).None?
      ensures r.Err? ==> r.error == NotFound && follows == old(follows)
      ensures r.Ok? ==> follows == UnfollowRows(old(follows), LoggedInProfile(profiles, user), FindProfile(profiles, pk).value)
    {
      var me := LoggedInProfile(profiles, user);
      var found := FindProfile(profiles, pk);
      if found.None? {
        return Err(NotFound);
      }
      var other := found.value;
      if me.Some? {
        UnfollowKeepsValid(follows, FollowsPair(me.value.pk, other.pk));
        follows := DeleteWhere(follows, FollowsPair(me.value.pk, other.pk));
      }
      r := Ok(());
    }

    /** LikeView.post: 404 for an unknown post; otherwise like it unless it is one's own. */
    method LikePost(user: Option<nat>, pk: nat, now: int) returns (r: Result<(), DbError>)
      requires user.Some? && Valid()
      modifies this
      ensures Valid()
      ensures profiles == old(profiles) && posts == old(posts) && photos == old(photos)
      ensures follows == old(follows) && nextPostPk == old(nextPostPk)
      ensures r.Err? <==> FindPost(posts, pk).None?
      ensures r.Err? ==> r.error == NotFound && likes == old(likes)
      ensures r.Ok? ==> likes == LikeRows(old(likes), LoggedInProfile(profiles, user), FindPost(posts, pk).value, now)
    {
      var me := LoggedInProfile(profiles, user);
      var found := FindPost(posts, pk);
      if found.None? {
        return Err(NotFound);
      }
      var post := found.value;
      if me.Some? && post.profile != me.value.pk {
        LikeGetOrCreate(likes, me.value.pk, post.pk, now);
        var created := GetOrCreate(likes, LikesPair(me.value.pk, post.pk), Like(post.pk, me.value.pk, now));
        LikeAddedKeepsValid(likes, posts, me.value.pk, post, now);
        likes := created.value.0;
      }
      r := Ok(());
    }

    /** UnlikeView.post: 404 for an unknown post; otherwise delete one's likes of it. */
    method UnlikePost(user: Option<nat>, pk: nat) returns (r: Result<(), DbError>)
      requires user.Some? && Valid()
      modifies this
      ensures Valid()
      ensures profiles == old(profiles) && posts == old(posts) && photos == old(photos)
      ensures follows == old(follows) && nextPostPk == old(nextPostPk)
      ensures r.Err? <==> FindPost(posts, pk).None?
      ensures r.Err? ==> r.error == NotFound && likes == old(likes)
      ensures r.Ok? ==> likes == UnlikeRows(old(likes), LoggedInProfile(profiles, user), FindPost(posts, pk).value)
    {
      var me := LoggedInProfile(profiles, user);
      var found := FindPost(posts, pk);
      if found.None? {
        return Err(NotFound);
      }
      var post := found.value;
      if me.Some? {
        UnlikeKeepsValid(likes, posts, LikesPair(me.value.pk, post.pk));
        likes := DeleteWhere(likes, LikesPair(me.value.pk, post.pk));
      }
      r := Ok(());
    }

    /**
      CreatePostView.form_valid: the post is saved with the logged-in profile as author (for a user
      without a profile, the NOT NULL author column rejects it), then one photo is created per uploaded file.
     */
    method CreatePost(user: Option<nat>, caption: string, files: seq<ImageFile>, now: int) returns (r: Result<nat, DbError>)
      requires user.Some? && Valid()
      modifies this
      ensures Valid()
      ensures profiles == old(profiles) && follows == old(follows) && likes == old(likes)
      ensures r.Err? <==> LoggedInProfile(profiles, user).None?
      ensures r.Err? ==> r.error == IntegrityError("profile_id")
                         && posts == old(posts) && photos == old(photos) && nextPostPk == old(nextPostPk)
      ensures r.Ok? ==> && r.value == old(nextPostPk) && nextPostPk == r.value + 1
                        && posts == old(posts) + [Post(r.value, LoggedInProfile(profiles, user).value.pk, now, caption)]
                        && photos == old(photos) + NewPhotos(r.value, files, now)
    {
      var me := LoggedInProfile(profiles, user);
      if me.None? {
        return Err(IntegrityError("profile_id"));
      }
      var pk := nextPostPk;
      posts := posts + [Post(pk, me.value.pk, now, caption)];
      nextPostPk := pk + 1;
      var added := UploadedPhotos(pk, files, now);
      photos := photos + added;
      NewPostConsistent(profiles, old(posts), old(photos), follows, likes, pk, Post(pk, me.value.pk, now, caption),
                        NewPhotos(pk, files, now));
      r := Ok(pk);
    }
  }

  /** Deleting follow rows keeps the table free of self-follows and of repeated pairs. */
  lemma UnfollowKeepsValid(follows: seq<Follow>, matches: Follow -> bool)
    requires NoSelfFollow(follows) && UniqueFollows(follows)
    ensures NoSelfFollow(DeleteWhere(follows, matches)) && UniqueFollows(DeleteWhere(follows, matches))
  {
    DeleteWherePairwise(follows, matches, (a: Follow, b: Follow) => FollowKey(a) != FollowKey(b));
  }

  /** Deleting likes keeps them unique, and keeps them off their authors' own posts. */
  lemma UnlikeKeepsValid(likes: seq<Like>, posts: seq<Post>, matches: Like -> bool)
    requires UniqueLikes(likes) && NoOwnLikes(likes, posts)
    ensures UniqueLikes(DeleteWhere(likes, matches)) && NoOwnLikes(DeleteWhere(likes, matches), posts)
  {
    DeleteWherePairwise(likes, matches, (a: Like, b: Like) => LikeKey(a) != LikeKey(b));
  }

  /** A new post under the next key, with photos of its own, keeps the tables consistent. */
  lemma NewPostConsistent(profiles: seq<Profile>, posts: seq<Post>, photos: seq<Photo>, follows: seq<Follow>,
                          likes: seq<Like>, next: nat, post: Post, added: seq<Photo>)
    requires Consistent(profiles, posts, photos, follows, likes, next)
    requires post.pk == next && forall x :: x in added ==> x.post == next
    ensures Consistent(profiles, posts + [post], photos + added, follows, likes, next + 1)
  {
    var after := posts + [post];
    forall i, j | 0 <= i < j < |after| ensures after[i].pk != after[j].pk {
      if j == |posts| {
        assert after[i] in posts;
      }
    }
  }

  /** A like added by the view keeps likes unique and never likes one's own post. */
  lemma LikeAddedKeepsValid(likes: seq<Like>, posts: seq<Post>, me: nat, post: Post, now: int)
    requires UniqueLikes(likes) && NoOwnLikes(likes, posts)
    requires post in posts && post.profile != me
    requires forall i, j :: 0 <= i < j < |posts| ==> posts[i].pk != posts[j].pk
    ensures UniqueLikes(Liked(likes, me, post.pk, now)) && NoOwnLikes(Liked(likes, me, post.pk, now), posts)
  {
    var after := Liked(likes, me, post.pk, now);
    if !exists l :: l in likes && LikesPair(me, post.pk)(l) {
      forall i, j | 0 <= i < j < |after| ensures LikeKey(after[i]) != LikeKey(after[j]) {
        if j == |likes| {
          assert after[i] in likes;
        }
      }
      forall x | x in posts && x.pk == post.pk ensures x.profile != me {
        var a, b :| 0 <= a < |posts| && 0 <= b < |posts| && posts[a] == x && posts[b] == post;
        assert posts[a].pk == posts[b].pk;
      }
    }
  }

  /** A new post's photos are exactly the ones created for its files: one per uploaded file. */
  lemma CreatedPhotos(photos: seq<Photo>, pk: nat, files: seq<ImageFile>, now: int)
    requires forall x :: x in photos ==> x.post < pk
    ensures PhotosOf(photos + NewPhotos(pk, files, now), pk) == NewPhotos(pk, files, now)
    ensures |AllPhotos(photos + NewPhotos(pk, files, now), pk)| == |files|
  {
    var added := NewPhotos(pk, files, now);
    KeepAppend(photos, added, (x: Photo) => x.post == pk);
    KeepAll(added, (x: Photo) => x.post == pk);
    KeepNone(photos, (x: Photo) => x.post == pk);
    var all := AllPhotos(photos + added, pk);
    assert |multiset(all)| == |multiset(PhotosOf(photos + added, pk))|;
  }
}
