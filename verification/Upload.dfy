/** The upload dialog: a two-step wizard (title and hashtags, then the clip)
    whose second step runs a simulated transfer that raises the progress by
    10 percentage points per timer tick and, on reaching 100, hands the new
    record to the feed and clears the dialog.

    The dialog's state is the value `Form`; `Next` and `Fire` are its
    transitions and the lemmas below state what they promise. The class
    `VideoUploadForm` holds the same state in mutable fields and its methods
    are proved to perform exactly these transitions. The clock and the
    object-URL service of the browser are parameters (`now`, `url`); the
    interval timer is the explicit method `Tick`. */
module Upload {
  import opened Videos
  import Hashtags

  /** The only media type the second step accepts. */
  const Mp4: string := "video/mp4"
  /** Percentage points added per timer tick. */
  const ProgressStep: int := 10
  /** The progress at which the transfer counts as finished. */
  const Complete: int := 100

  /** The chosen file, as far as the dialog looks at it: its declared type. */
  datatype VideoFile = VideoFile(name: string, mimeType: string)

  /** A running interval timer: the progress counter it closes over and the
      record it will hand over when the counter reaches 100. */
  datatype Timer = Timer(progress: int, video: Video)

  /** The dialog's state: the popup flag, the two text fields, the step, the
      chosen file, the progress shown, and the interval timers running. */
  datatype Form = Form(
    showPopup: bool,
    title: string,
    tags: string,
    step: int,
    videoFile: Option<VideoFile>,
    uploadProgress: int,
    timers: seq<Timer>)

  /** The message a refused advance shows. */
  datatype Alert = TitleRequired | FileRequired | OnlyMp4

  /** What a press of the advance button did. */
  datatype Advance = Moved | Started | Refused(alert: Alert)

  /** One timer tick: the new state, the value passed to the progress
      setter, and the record handed to the feed, if any. */
  datatype TickResult = TickResult(form: Form, reported: int, delivered: Option<Video>)

  /** Several ticks of the first running timer: the final state, the progress
      values reported in order, and the records handed over in order. */
  datatype Run = Run(form: Form, trace: seq<int>, delivered: seq<Video>)

  /** The dialog as the page first renders it. */
  function Initial(): Form {
    Form(false, "", "", 1, None, 0, [])
  }

  /** The dialog after a finished transfer: popup closed, fields emptied, no
      file, no progress, back on the first step; other timers keep running. */
  function Cleared(timers: seq<Timer>): Form {
    Form(false, "", "", 1, None, 0, timers)
  }

  /** A progress value that can be observed between ticks. */
  predicate ProgressValue(p: int) {
    0 <= p < Complete && p % ProgressStep == 0
  }

  /** The ranges the dialog's numbers keep: the step is 1 or 2, and every
      progress value is a multiple of 10 below 100. */
  predicate InRange(f: Form) {
    && (f.step == 1 || f.step == 2)
    && ProgressValue(f.uploadProgress)
    && forall i :: 0 <= i < |f.timers| ==> ProgressValue(f.timers[i].progress)
  }

  /** The condition that disables the file input and the advance button.
      With the progress a multiple of 10 below 100, it holds exactly when the
      progress is not 0. */
  predicate Uploading(f: Form)
    ensures InRange(f) ==> (Uploading(f) <==> f.uploadProgress != 0)
  {
    0 < f.uploadProgress < Complete
  }

  /** When the advance button can be pressed, as the page is written: the
      popup is open and the progress is not strictly between 0 and 100. With
      the progress in range that is: the popup is open and the progress is 0,
      whatever timers are running. */
  predicate AdvanceEnabledAsWritten(f: Form)
    ensures InRange(f) ==> (AdvanceEnabledAsWritten(f) <==> f.showPopup && f.uploadProgress == 0)
  {
    f.showPopup && !Uploading(f)
  }

  /** When the advance button can be pressed once no second transfer may be
      started while one is pending (see the findings): as written, and no
      timer running. */
  predicate AdvanceEnabled(f: Form) {
    AdvanceEnabledAsWritten(f) && f.timers == []
  }

  /** At most one transfer is pending and the progress shown is its counter,
      or 0 when there is none. */
  predicate SingleTransfer(f: Form) {
    && |f.timers| <= 1
    && f.uploadProgress == (if f.timers == [] then 0 else f.timers[0].progress)
  }

  /** A press of the advance button. On the first step a blank title is
      refused and anything else moves to the second step. On the second step
      a missing file or a type other than "video/mp4" is refused; otherwise
      the record (the untrimmed title, the parsed hashtags, the given
      identifier and address) is built and a transfer starts at 0. A refusal
      changes nothing. */
  function Next(f: Form, now: int, url: string): (r: (Form, Advance))
    ensures r.1.Refused? ==> r.0 == f
    ensures r.1 == Refused(TitleRequired) <==> f.step == 1 && Hashtags.IsBlank(f.title)
    ensures r.1 == Moved <==> f.step == 1 && !Hashtags.IsBlank(f.title)
    ensures r.1 == Moved ==> r.0 == f.(step := 2)
    ensures r.1 == Refused(FileRequired) <==> f.step != 1 && f.videoFile.None?
    ensures r.1 == Refused(OnlyMp4) <==> f.step != 1 && f.videoFile.Some? && f.videoFile.value.mimeType != Mp4
    ensures r.1 == Started <==> f.step != 1 && f.videoFile.Some? && f.videoFile.value.mimeType == Mp4
    ensures r.1 == Started ==>
      r.0 == f.(timers := f.timers + [Timer(0, Video(now, url, f.title, Hashtags.ParseHashtags(f.tags)))])
    ensures InRange(f) ==> InRange(r.0)
  {
    if f.step == 1 then
      if Hashtags.Trim(f.title) == [] then (f, Refused(TitleRequired)) else (f.(step := 2), Moved)
    else if f.videoFile.None? then (f, Refused(FileRequired))
    else if f.videoFile.value.mimeType != Mp4 then (f, Refused(OnlyMp4))
    else
      var newVideo := Video(now, url, f.title, Hashtags.ParseHashtags(f.tags));
      (f.(timers := f.timers + [Timer(0, newVideo)]), Started)
  }

  /** One tick of timer i: its counter grows by 10 and is shown. When it
      reaches 100 the timer stops, its record is handed over exactly then,
      and the dialog is cleared; otherwise nothing else changes. */
  function Fire(f: Form, i: nat): (r: TickResult)
    requires i < |f.timers|
    ensures r.reported == f.timers[i].progress + ProgressStep
    ensures r.delivered.Some? <==> r.reported >= Complete
    ensures r.delivered.Some? ==>
      && r.delivered.value == f.timers[i].video
      && r.form.timers == f.timers[..i] + f.timers[i + 1..]
      && !r.form.showPopup && r.form.title == "" && r.form.tags == "" && r.form.step == 1
      && r.form.videoFile == None && r.form.uploadProgress == 0
    ensures r.delivered.None? ==>
      r.form == f.(uploadProgress := r.reported,
                   timers := f.timers[i := Timer(r.reported, f.timers[i].video)])
    ensures InRange(f) ==>
      && InRange(r.form)
      && r.reported % ProgressStep == 0 && ProgressStep <= r.reported <= Complete
  {
    var t := f.timers[i];
    var progress := t.progress + ProgressStep;
    if progress >= Complete then
      TickResult(Cleared(f.timers[..i] + f.timers[i + 1..]), progress, Some(t.video))
    else
      TickResult(f.(uploadProgress := progress, timers := f.timers[i := Timer(progress, t.video)]),
                 progress, None)
  }

  /** n ticks of the first running timer (fewer if none is left); other
      running timers do not fire. */
  function Ticks(f: Form, n: nat): Run
    decreases n
  {
    if n == 0 || f.timers == [] then Run(f, [], [])
    else
      var t := Fire(f, 0);
      var rest := Ticks(t.form, n - 1);
      Run(rest.form, [t.reported] + rest.trace,
          (if t.delivered.Some? then [t.delivered.value] else []) + rest.delivered)
  }

  /** At most one value is reported per tick and at most one record handed
      over per reported value; every record handed over takes its timer with
      it, so the records handed over and the timers still running add up to
      the timers there were. */
  lemma {:induction false} TicksCounts(f: Form, n: nat)
    ensures var r := Ticks(f, n);
      && |r.trace| <= n && |r.delivered| <= |r.trace|
      && |r.delivered| + |r.form.timers| == |f.timers|
    decreases n
  {
    if n > 0 && f.timers != [] {
      var t := Fire(f, 0);
      TicksCounts(t.form, n - 1);
      if t.delivered.Some? {
        assert |t.form.timers| == |f.timers| - 1;
      }
    }
  }

  /** Ticks compose: a ticks and then b ticks are a + b ticks. */
  lemma {:induction false} TicksAdd(f: Form, a: nat, b: nat)
    ensures var first := Ticks(f, a);
      var second := Ticks(first.form, b);
      Ticks(f, a + b) == Run(second.form, first.trace + second.trace, first.delivered + second.delivered)
    decreases a
  {
    if a > 0 && f.timers != [] {
      var t := Fire(f, 0);
      TicksAdd(t.form, a - 1, b);
      var first := Ticks(t.form, a - 1);
      var second := Ticks(first.form, b);
      var d := if t.delivered.Some? then [t.delivered.value] else [];
      ConcatAssoc([t.reported], first.trace, second.trace);
      ConcatAssoc(d, first.delivered, second.delivered);
    } else {
      var second := Ticks(f, b);
      assert [] + second.trace == second.trace && [] + second.delivered == second.delivered;
    }
  }

  lemma ConcatAssoc<T>(x: seq<T>, y: seq<T>, z: seq<T>)
    ensures x + (y + z) == (x + y) + z
  {
  }

  /** A transfer whose counter is at p goes through p + 10, p + 20, ..., 100;
      before its last tick it hands nothing over and shows its counter; at its
      last tick, the one that brings it to 100, it hands its record over exactly
      once and the dialog is cleared, the other timers untouched. */
  lemma {:induction false} TransferTicks(f: Form, n: nat)
    requires f.timers != [] && ProgressValue(f.timers[0].progress)
    requires f.timers[0].progress + ProgressStep * n <= Complete
    ensures var p := f.timers[0].progress;
      var v := f.timers[0].video;
      var r := Ticks(f, n);
      && |r.trace| == n
      && (forall k :: 0 <= k < n ==> r.trace[k] == p + ProgressStep * (k + 1))
      && (0 < n && p + ProgressStep * n < Complete ==>
            r.delivered == []
            && r.form == f.(uploadProgress := p + ProgressStep * n,
                            timers := [Timer(p + ProgressStep * n, v)] + f.timers[1..]))
      && (p + ProgressStep * n == Complete ==>
            r.delivered == [v] && r.form == Cleared(f.timers[1..]))
    decreases n
  {
    if n > 0 {
      var p := f.timers[0].progress;
      var v := f.timers[0].video;
      var t := Fire(f, 0);
      if p + ProgressStep >= Complete {
        assert n == 1;
        assert f.timers[..0] + f.timers[1..] == f.timers[1..];
        assert t.form == Cleared(f.timers[1..]);
      } else {
        assert t.form.timers == [Timer(p + ProgressStep, v)] + f.timers[1..];
        TransferTicks(t.form, n - 1);
        var rest := Ticks(t.form, n - 1);
        assert forall k :: 1 <= k < n ==> Ticks(f, n).trace[k] == rest.trace[k - 1];
        if n - 1 > 0 {
          assert t.form.timers[1..] == f.timers[1..];
        }
      }
    }
  }

  /** A transfer just started runs to completion in ten ticks. */
  lemma FullTransfer(f: Form)
    requires f.timers != [] && f.timers[0].progress == 0
    ensures Ticks(f, 10).delivered == [f.timers[0].video]
    ensures Ticks(f, 10).form == Cleared(f.timers[1..])
  {
    TransferTicks(f, 10);
  }

  /** A valid press of "Upload" on the second step, with no transfer pending,
      followed by ten ticks: the progress goes 10, 20, ..., 100, the record
      built from the dialog's fields is handed over once, at the tenth tick,
      and the dialog is back in its initial state. */
  lemma {:induction false} UploadRuns(f: Form, now: int, url: string)
    requires f.step == 2 && f.videoFile.Some? && f.videoFile.value.mimeType == Mp4
    requires f.timers == []
    ensures var g := Next(f, now, url);
      var r := Ticks(g.0, 10);
      && g.1 == Started
      && r.trace == [10, 20, 30, 40, 50, 60, 70, 80, 90, 100]
      && r.delivered == [Video(now, url, f.title, Hashtags.ParseHashtags(f.tags))]
      && r.form == Initial()
  {
    var g := Next(f, now, url).0;
    assert g.timers == [Timer(0, Video(now, url, f.title, Hashtags.ParseHashtags(f.tags)))];
    TransferTicks(g, 10);
    var r := Ticks(g, 10);
    assert g.timers[1..] == [];
    TenSteps(r.trace);
  }

  lemma TenSteps(trace: seq<int>)
    requires |trace| == 10 && forall k :: 0 <= k < 10 ==> trace[k] == 0 + ProgressStep * (k + 1)
    ensures trace == [10, 20, 30, 40, 50, 60, 70, 80, 90, 100]
  {
  }

  /** A worked case: title "T" and hashtags "a, b" give the record
      titled "T" with the hashtags ["#a", "#b"]. */
  lemma UploadExample(f: Form, now: int, url: string)
    requires f.step == 2 && f.videoFile.Some? && f.videoFile.value.mimeType == Mp4
    requires f.timers == [] && f.title == "T" && f.tags == "a, b"
    ensures Ticks(Next(f, now, url).0, 10).delivered == [Video(now, url, "T", ["#a", "#b"])]
  {
    UploadRuns(f, now, url);
    Hashtags.ParseHashtagsExample();
  }

  /** As the page is written, the advance button stays enabled between the
      press that starts a transfer and the transfer's first tick (the progress
      is still 0). A second press in that window starts a second transfer of
      the same title and hashtags, and both records reach the feed. */
  lemma {:induction false} DoubleSubmitAsWritten(f: Form, now1: int, url1: string, now2: int, url2: string)
    requires f.showPopup && f.step == 2 && f.videoFile.Some? && f.videoFile.value.mimeType == Mp4
    requires f.uploadProgress == 0 && f.timers == []
    ensures var first := Next(f, now1, url1);
      var second := Next(first.0, now2, url2);
      var tags := Hashtags.ParseHashtags(f.tags);
      && AdvanceEnabledAsWritten(f)
      && first.1 == Started
      && AdvanceEnabledAsWritten(first.0)
      && second.1 == Started
      && |second.0.timers| == 2
      && Ticks(second.0, 20).delivered == [Video(now1, url1, f.title, tags), Video(now2, url2, f.title, tags)]
  {
    var tags := Hashtags.ParseHashtags(f.tags);
    var v1 := Video(now1, url1, f.title, tags);
    var v2 := Video(now2, url2, f.title, tags);
    var first := Next(f, now1, url1).0;
    assert first.timers == [Timer(0, v1)] && first.uploadProgress == 0;
    var g := Next(first, now2, url2).0;
    assert g.timers == [Timer(0, v1), Timer(0, v2)];
    TwoTransfers(g, v1, v2);
  }

  /** Two transfers started together deliver both records, in order, within
      twenty ticks. */
  lemma TwoTransfers(g: Form, v1: Video, v2: Video)
    requires g.timers == [Timer(0, v1), Timer(0, v2)]
    ensures Ticks(g, 20).delivered == [v1, v2]
  {
    var first := Ticks(g, 10);
    FullTransfer(g);
    var h := first.form;
    assert h.timers == [Timer(0, v2)] by {
      assert g.timers[1..] == [Timer(0, v2)];
    }
    FullTransfer(h);
    TicksAdd(g, 10, 10);
    assert Ticks(g, 20).delivered == [v1] + [v2];
  }

  /** With the corrected guard the same press disables the button until the
      transfer is over, every reachable state keeps at most one transfer, and
      the record is handed over exactly once however many ticks follow. */
  lemma {:induction false} SingleSubmit(f: Form, now: int, url: string, n: nat)
    requires SingleTransfer(f) && AdvanceEnabled(f)
    requires f.step == 2 && f.videoFile.Some? && f.videoFile.value.mimeType == Mp4
    requires n >= 10
    ensures var g := Next(f, now, url);
      && g.1 == Started
      && SingleTransfer(g.0)
      && !AdvanceEnabled(g.0)
      && Ticks(g.0, n).delivered == [Video(now, url, f.title, Hashtags.ParseHashtags(f.tags))]
  {
    UploadRuns(f, now, url);
    TicksAfterIdle(Next(f, now, url).0, 10, n);
  }

  /** Once no transfer is running, further ticks hand nothing more over. */
  lemma TicksAfterIdle(f: Form, a: nat, n: nat)
    requires a <= n && Ticks(f, a).form.timers == []
    ensures Ticks(f, n).delivered == Ticks(f, a).delivered
  {
    var first := Ticks(f, a);
    TicksAdd(f, a, n - a);
    assert Ticks(first.form, n - a) == Run(first.form, [], []);
    assert first.delivered + [] == first.delivered;
  }

  /** The dialog component. Its fields are the state hooks of the page; the
      running interval timers are the closures the page leaves behind. */
  class VideoUploadForm {
    var showPopup: bool
    var title: string
    var tags: string
    var step: int
    var videoFile: Option<VideoFile>
    var uploadProgress: int
    var timers: seq<Timer>

    ghost function State(): Form
      reads this
    {
      Form(showPopup, title, tags, step, videoFile, uploadProgress, timers)
    }

    ghost predicate Valid()
      reads this
    {
      InRange(State()) && SingleTransfer(State())
    }

    constructor ()
      ensures Valid() && State() == Initial()
    {
      showPopup, title, tags, step := false, "", "", 1;
      videoFile, uploadProgress, timers := None, 0, [];
    }

    /** The "Upload" button of the page opens the popup. */
    method Open()
      requires Valid()
      modifies this
      ensures Valid() && State() == old(State()).(showPopup := true)
    {
      showPopup := true;
    }

    /** Typing in the title field (shown on the first step only). */
    method SetTitle(value: string)
      requires Valid() && showPopup && step == 1
      modifies this
      ensures Valid() && State() == old(State()).(title := value)
    {
      title := value;
    }

    /** Typing in the hashtag field (shown on the first step only). */
    method SetTags(value: string)
      requires Valid() && showPopup && step == 1
      modifies this
      ensures Valid() && State() == old(State()).(tags := value)
    {
      tags := value;
    }

    /** Choosing a file, or cancelling the choice (shown on the second step,
      disabled while the progress is strictly between 0 and 100). */
    method SetVideoFile(file: Option<VideoFile>)
      requires Valid() && showPopup && step != 1 && !Uploading(State())
      modifies this
      ensures Valid() && State() == old(State()).(videoFile := file)
    {
      videoFile := file;
    }

    /** The advance button ("Next" on the first step, "Upload" on the
      second). */
    method HandleNext(now: int, url: string) returns (outcome: Advance)
      requires Valid() && AdvanceEnabled(State())
      modifies this
      ensures Valid() && (State(), outcome) == Next(old(State()), now, url)
    {
      if step == 1 {
        if Hashtags.Trim(title) == [] {
          return Refused(TitleRequired);
        }
        step := 2;
        return Moved;
      }
      if videoFile.None? {
        return Refused(FileRequired);
      }
      if videoFile.value.mimeType != Mp4 {
        return Refused(OnlyMp4);
      }
      var newVideo := Video(now, url, title, Hashtags.ParseHashtags(tags));
      timers := timers + [Timer(0, newVideo)];
      return Started;
    }

    /** One firing of the pending transfer's interval timer. */
    method Tick() returns (reported: int, delivered: Option<Video>)
      requires Valid() && timers != []
      modifies this
      ensures Valid() && TickResult(State(), reported, delivered) == Fire(old(State()), 0)
    {
      var t := timers[0];
      var progress := t.progress + ProgressStep;
      uploadProgress := progress;
      reported := progress;
      if progress >= Complete {
        timers := timers[1..];
        delivered := Some(t.video);
        showPopup := false;
        title := "";
        tags := "";
        videoFile := None;
        uploadProgress := 0;
        step := 1;
      } else {
        timers := timers[0 := Timer(progress, t.video)];
        delivered := None;
      }
      assert old(timers)[..0] + old(timers)[1..] == old(timers)[1..];
    }
  }
}
