/**
  AuthMixin.get_logged_in_profile of mini_insta/mixins.py: the profile that acts for the
  current user. A user may own several profiles; the newest one (largest primary key) wins.
 */
module InstaAuth {
  import opened Wrappers
  import opened Seqs
  import opened InstaModels

  /** Profile.objects.filter(user=u) */
  function ProfilesOf(profiles: seq<Profile>, u: nat): seq<Profile> {
    Keep(profiles, (p: Profile) => p.user == Some(u))
  }

  /** The order of order_by('-pk'): larger keys first. */
  predicate Greater(a: nat, b: nat) {
    a > b
  }

  function Pk(p: Profile): nat {
    p.pk
  }

  /**
    get_logged_in_profile: None for an anonymous request (user is None); otherwise the first of
    the user's profiles ordered by descending primary key, None when there is none.
   */
  function LoggedInProfile(profiles: seq<Profile>, user: Option<nat>): Option<Profile> {
    if user.None? then None
    else
      var mine := SortBy(ProfilesOf(profiles, user.value), Pk, Greater);
      if mine == [] then None else Some(mine[0])
  }

  /**
    The profile chosen belongs to the current user and has the largest primary key among the
    user's profiles; there is none exactly when the request is anonymous or the user owns no profile.
   */
  lemma LoggedInProfileMeaning(profiles: seq<Profile>, user: Option<nat>)
    ensures var me := LoggedInProfile(profiles, user);
            && (me.None? <==> user.None? || forall p :: p in profiles ==> p.user != user)
            && (me.Some? ==> me.value in profiles && me.value.user == user)
            && (me.Some? ==> forall p :: p in profiles && p.user == user ==> p.pk <= me.value.pk)
  {
    if user.Some? {
      var own := ProfilesOf(profiles, user.value);
      var mine := SortBy(own, Pk, Greater);
      assert IsStrictTotalOrder(Greater);
      SortBySorted(own, Pk, Greater);
      assert forall p :: p in mine <==> p in own by {
        forall p ensures p in mine <==> p in own {
          assert p in mine <==> p in multiset(mine);
          assert p in own <==> p in multiset(own);
        }
      }
      if mine != [] {
        forall p | p in profiles && p.user == user ensures p.pk <= mine[0].pk {
          assert p in mine;
          var j :| 0 <= j < |mine| && mine[j] == p;
          if j > 0 {
            assert !Greater(Pk(mine[j]), Pk(mine[0]));
          }
        }
        assert mine[0] in mine;
      }
    }
  }
}
