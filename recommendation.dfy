/**
 * One recommendation as the page's "Recommend" button makes it (app.py):
 * the neighbours of the learner, then the platform their group prefers.
 */
module Recommendation {
  import N = Neighbours
  import P = Platform

  /** The learner ids the recommendation page accepts. */
  const FirstUserId: int := 12
  const LastUserId: int := 24

  /**
   * The recommendation for a learner. Removing duplicates and the learner
   * from the neighbour list changes nothing: the platforms are compared over
   * the learner and the top ids of both matrix rows, however often each
   * appears.
   */
  function RecommendFor(userId: int, youtube: N.Matrix, nptel: N.Matrix, udemy: P.Table, coursera: P.Table): (name: P.PlatformName)
    requires FirstUserId <= userId <= LastUserId
    requires userId <= |youtube| && userId <= |nptel|
    ensures name == P.RecommendPlatform(userId, N.TopIds(youtube[userId - 1]) + N.TopIds(nptel[userId - 1]), udemy, coursera)
  {
    var similar := N.GetSimilarUsers(userId, youtube, nptel);
    var merged := N.TopIds(youtube[userId - 1]) + N.TopIds(nptel[userId - 1]);
    assert forall id :: id in similar + [userId] <==> id in merged + [userId];
    P.MeanSameMembers(udemy, similar + [userId], merged + [userId]);
    P.MeanSameMembers(coursera, similar + [userId], merged + [userId]);
    P.RecommendPlatform(userId, similar, udemy, coursera)
  }
}
