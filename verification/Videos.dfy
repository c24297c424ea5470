/** The record every feed entry and every upload is made of, and the three
    sample clips the feed starts from and cycles through. */
module Videos {

  datatype Option<T> = None | Some(value: T)

  /** A feed entry: an identifier (a millisecond timestamp for records made on
      the client), the address of the clip, the title and the hashtags. */
  datatype Video = Video(id: int, url: string, title: string, hashtags: seq<string>)

  /** The sample clips shown when the page opens; scrolling to the end of the
      feed appends copies of them in turn. */
  const InitialVideos: seq<Video> := [
    Video(1, "https://commondatastorage.googleapis.com/gtv-videos-bucket/sample/BigBuckBunny.mp4",
          "Big Buck Bunny", ["#bunny", "#nature"]),
    Video(2, "https://commondatastorage.googleapis.com/gtv-videos-bucket/sample/ElephantsDream.mp4",
          "Elephant's Dream", ["#dream", "#elephant"]),
    Video(3, "https://commondatastorage.googleapis.com/gtv-videos-bucket/sample/Sintel.mp4",
          "Sintel", ["#sintel", "#animation"])
  ]

  /** The sample pool holds three clips numbered 1, 2, 3 in order, and every
      sample hashtag is a '#' followed by at least one character. */
  lemma InitialVideosShape()
    ensures |InitialVideos| == 3
    ensures forall k :: 0 <= k < |InitialVideos| ==> InitialVideos[k].id == k + 1
    ensures forall k, j :: 0 <= k < |InitialVideos| && 0 <= j < |InitialVideos[k].hashtags| ==>
      |InitialVideos[k].hashtags[j]| > 1 && InitialVideos[k].hashtags[j][0] == '#'
  {
  }
}
