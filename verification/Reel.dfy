/** One full-screen reel of the feed: the like flag and the sound flag the
    viewer toggles, next to the `muted` property of the page's video element
    that the sound button also flips. */
module Reel {

  class VideoReel {
    /** The like button's state. */
    var liked: bool
    /** The sound flag the component renders from. */
    var isMuted: bool
    /** The `muted` property of the mounted video element. */
    var playerMuted: bool

    /** The element's sound agrees with the flag the component shows. */
    ghost predicate Valid()
      reads this
    {
      isMuted == playerMuted
    }

    /** A reel as first rendered: not liked, sound off. */
    constructor ()
      ensures Valid() && !liked && isMuted
    {
      liked, isMuted, playerMuted := false, true, true;
    }

    /** The like button flips the like flag and nothing else. */
    method ToggleLike()
      modifies this
      ensures liked == !old(liked)
      ensures isMuted == old(isMuted) && playerMuted == old(playerMuted)
    {
      liked := !liked;
    }

    /** The sound button flips the component's flag and the element's
        property, so the two stay in agreement. */
    method ToggleMute()
      requires Valid()
      modifies this
      ensures Valid() && isMuted == !old(isMuted) && liked == old(liked)
    {
      isMuted := !isMuted;
      playerMuted := !playerMuted;
    }
  }
}
