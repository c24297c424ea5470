/** The page's feed: the list of reels shown, grown at the front by uploads
    and at the back, one sample copy at a time, whenever the end of the list
    scrolls into view.

    The list updates are the pure functions `Prepend` and `Append`; the class
    `Home` holds the list and the counter of appended copies and is proved to
    apply exactly these updates. Identifiers are a parameter: the page takes
    them from the clock, so two entries made in the same millisecond share
    one and nothing here claims they are distinct. */
module Feed {
  import opened Videos
  import Upload

  /** The feed after an upload: the new record first, the old feed after it. */
  function Prepend(videos: seq<Video>, v: Video): (r: seq<Video>)
    ensures |r| == |videos| + 1
    ensures r[0] == v
    ensures forall k :: 0 <= k < |videos| ==> r[k + 1] == videos[k]
  {
    [v] + videos
  }

  /** The copy of a sample clip appended as the k-th copy: the sample chosen
      cyclically by k, under the identifier `id`. */
  function SampleCopy(k: nat, id: int): (v: Video)
    ensures var sample := InitialVideos[k % |InitialVideos|];
      && v.id == id
      && v.url == sample.url && v.title == sample.title && v.hashtags == sample.hashtags
  {
    InitialVideos[k % |InitialVideos|].(id := id)
  }

  /** The feed after the end of the list came into view with k copies
      appended so far. */
  function Append(videos: seq<Video>, k: nat, id: int): (r: seq<Video>)
    ensures |r| == |videos| + 1
    ensures forall j :: 0 <= j < |videos| ==> r[j] == videos[j]
    ensures r[|videos|] == SampleCopy(k, id)
  {
    videos + [SampleCopy(k, id)]
  }

  /** The feed after the end came into view once per identifier in `ids`,
      starting with k copies appended. */
  function Extend(videos: seq<Video>, k: nat, ids: seq<int>): seq<Video>
    decreases |ids|
  {
    if ids == [] then videos
    else Extend(Append(videos, k, ids[0]), k + 1, ids[1..])
  }

  /** Repeated appends keep the feed and add one copy per identifier, the
      j-th taken from sample (k + j) mod 3, so that from a fresh page the
      samples come round in the order 0, 1, 2, 0, 1, 2, ... */
  lemma {:induction false} ExtendCycles(videos: seq<Video>, k: nat, ids: seq<int>)
    ensures var r := Extend(videos, k, ids);
      && |r| == |videos| + |ids|
      && (forall j :: 0 <= j < |videos| ==> r[j] == videos[j])
      && (forall j :: 0 <= j < |ids| ==> r[|videos| + j] == SampleCopy(k + j, ids[j]))
    decreases |ids|
  {
    if ids != [] {
      var next := Append(videos, k, ids[0]);
      ExtendCycles(next, k + 1, ids[1..]);
      var r := Extend(videos, k, ids);
      assert r == Extend(next, k + 1, ids[1..]);
      forall j | 1 <= j < |ids|
        ensures r[|videos| + j] == SampleCopy(k + j, ids[j])
      {
        assert r[|next| + (j - 1)] == SampleCopy(k + 1 + (j - 1), ids[1..][j - 1]);
      }
    }
  }

  /** The page component: the feed, the counter of appended copies and the
      upload dialog whose finished transfers are prepended to the feed. */
  class Home {
    var videos: seq<Video>
    var nextIndex: nat
    const form: Upload.VideoUploadForm

    ghost predicate Valid()
      reads this, form
    {
      form.Valid()
    }

    /** The page as first rendered: the sample clips, no copies appended, the
        dialog closed. */
    constructor ()
      ensures Valid() && fresh(form)
      ensures videos == InitialVideos && nextIndex == 0 && form.State() == Upload.Initial()
    {
      videos := InitialVideos;
      nextIndex := 0;
      form := new Upload.VideoUploadForm();
    }

    /** The dialog's upload callback: the record goes to the front. */
    method HandleUpload(v: Video)
      requires Valid()
      modifies this
      ensures Valid()
      ensures videos == Prepend(old(videos), v) && nextIndex == old(nextIndex)
    {
      videos := [v] + videos;
    }

    /** The end of the feed came into view at time `now`: the next sample, in
        turn, is appended under the identifier `now`. */
    method OnSentinel(now: int)
      requires Valid()
      modifies this
      ensures Valid()
      ensures videos == Append(old(videos), old(nextIndex), now)
      ensures nextIndex == old(nextIndex) + 1
    {
      var next := InitialVideos[nextIndex % |InitialVideos|];
      nextIndex := nextIndex + 1;
      videos := videos + [next.(id := now)];
    }

    /** A tick of the dialog's pending transfer; a record it hands over is
        passed to `HandleUpload`. */
    method UploadTick() returns (reported: int, delivered: Option<Video>)
      requires Valid() && form.timers != []
      modifies this, form
      ensures Valid() && nextIndex == old(nextIndex)
      ensures Upload.TickResult(form.State(), reported, delivered) == Upload.Fire(old(form.State()), 0)
      ensures videos == if delivered.Some? then Prepend(old(videos), delivered.value) else old(videos)
    {
      reported, delivered := form.Tick();
      if delivered.Some? {
        HandleUpload(delivered.value);
      }
    }
  }
}
