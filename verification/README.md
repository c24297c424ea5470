# Reels clone: upload dialog, hashtag parser and feed

A model in Dafny of the single page of a short-video ("reels") web client. The
page shows a vertically scrolling feed of clips, lets the viewer like a clip
and switch its sound on and off, appends copies of three sample clips whenever
the end of the feed scrolls into view, and offers an upload dialog: a two-step
wizard that asks for a title and comma-separated hashtags, then for an MP4
file, and then runs a simulated transfer (10 percentage points per timer tick)
at whose end the new record is put at the front of the feed and the dialog is
cleared.

The project has five modules:

- `Videos` — the feed record and the three sample clips.
- `Hashtags` — the hashtag parser: `split(",")`, `trim()` and `'#' +` on every
  piece, and the filter that drops the bare `"#"`. Splitting and trimming follow
  the JavaScript built-ins; whitespace is the set of code points
  `String.prototype.trim` removes (ECMAScript WhiteSpace and LineTerminator).
- `Upload` — the dialog as a value `Form` with its transitions `Next` (a press
  of the advance button) and `Fire` (one tick of an interval timer), the
  lemmas about whole transfers, and the class `VideoUploadForm` whose methods
  are proved to perform exactly these transitions on its fields.
- `Feed` — the feed updates `Prepend` and `Append` and the class `Home` that
  owns the feed, the counter of appended copies and the dialog.
- `Reel` — the class `VideoReel` with its like and sound flags.

The clock (`Date.now()`), the object-URL service (`URL.createObjectURL`) and
the browser's interval timer are not modelled as such: the identifier and the
address of a new record are parameters, and each firing of a timer is an
explicit call. Running timers are kept in the dialog's state as a sequence of
(counter, record) pairs, one per interval the page has started and not yet
cleared.

## Model

| member | source | states |
|---|---|---|
| Hashtags.Trim | reelsclone/src/app/page.js:38 | the trimmed string is empty exactly when the input is all whitespace; otherwise it starts and ends with non-whitespace; it is the infix left after cutting a whitespace-only prefix and suffix |
| Hashtags.Split | reelsclone/src/app/page.js:61 | splitting on a separator yields at least one piece and no piece holds the separator |
| Hashtags.SplitCount | reelsclone/src/app/page.js:61 | there is exactly one piece more than there are separators in the input |
| Hashtags.SplitJoin | reelsclone/src/app/page.js:61 | joining the pieces with the separator gives the input back |
| Hashtags.JoinSplit | reelsclone/src/app/page.js:61 | splitting a join of separator-free pieces gives those pieces back, so the decomposition is unique |
| Hashtags.SplitBlank | reelsclone/src/app/page.js:61-62 | every piece is blank exactly when the input holds only separators and whitespace |
| Hashtags.Tag | reelsclone/src/app/page.js:62 | a tag starts with '#'; it is the bare "#" exactly when the piece is blank; otherwise the character after '#' and the last character are non-whitespace |
| Hashtags.TagChars | reelsclone/src/app/page.js:62 | apart from '#', a tag holds only characters of its piece |
| Hashtags.TagShape | reelsclone/src/app/page.js:62 | the tag of a non-blank piece without separator is '#' followed by text that neither starts nor ends with whitespace and holds no separator |
| Hashtags.MapTags | reelsclone/src/app/page.js:62 | the map step gives one tag per piece, and the k-th tag is the bare "#" exactly when the k-th piece is blank |
| Hashtags.DropBare | reelsclone/src/app/page.js:63 | the filter never lengthens the list |
| Hashtags.Kept | reelsclone/src/app/page.js:63 | the indices of tags other than "#", strictly increasing |
| Hashtags.KeptComplete | reelsclone/src/app/page.js:63 | every tag other than "#" has its index listed |
| Hashtags.DropBareKept | reelsclone/src/app/page.js:63 | the filter keeps exactly the tags other than "#", in their order: its k-th result is the tag at the k-th listed index |
| Hashtags.KeptTagsShape | reelsclone/src/app/page.js:60-63 | every kept tag of separator-free pieces is well formed |
| Hashtags.ParseHashtags | reelsclone/src/app/page.js:60-63 | every tag starts with '#', is not the bare "#", has no whitespace right after '#' or at its end, holds no comma; there are at most as many tags as comma-separated pieces |
| Hashtags.ParseHashtagsEmpty | reelsclone/src/app/page.js:60-63 | the tag list is empty exactly when the field holds only commas and whitespace, the empty field included |
| Hashtags.ParseHashtagsFollowsPieces | reelsclone/src/app/page.js:60-63 | the tags correspond, in order, to exactly the non-blank comma-separated pieces (strictly increasing indices, every non-blank piece listed), the k-th tag being '#' plus the trimmed piece: order is kept and there is one tag per non-blank piece |
| Hashtags.ParseHashtagsExample | reelsclone/src/app/page.js:60-63 | the field "a, b" gives ["#a", "#b"] |
| Videos.InitialVideosShape | reelsclone/src/app/page.js:7-26 | the sample pool `InitialVideos`: three clips numbered 1, 2, 3 in order, each hashtag a "#" followed by at least one character |
| Upload.Uploading | reelsclone/src/app/page.js:124 | the disabling condition 0 < progress < 100; with the progress a multiple of 10 below 100 it holds exactly when the progress is not 0 |
| Upload.AdvanceEnabledAsWritten | reelsclone/src/app/page.js:141 | the advance button as written is pressable when the popup is open and the progress is not strictly between 0 and 100; with the progress in range, exactly when the popup is open and the progress is 0, whatever timers are running |
| Upload.Next | reelsclone/src/app/page.js:36-64 | on step 1 a blank title is refused and anything else moves to step 2; on step 2 a missing file and a type other than "video/mp4" are refused and otherwise a transfer at 0 carrying the record (given id and address, untrimmed title, parsed hashtags) is started; each outcome holds exactly under its condition; a refusal changes nothing; the ranges of step and progress are kept |
| Upload.Fire | reelsclone/src/app/page.js:68-83 | a tick adds 10 to its counter and shows it; the record is handed over exactly when the counter reaches 100, and then the timer stops and popup, title, hashtags, file, progress and step are reset; otherwise only the progress and that counter change; the shown value is a multiple of 10 in [10, 100] |
| Upload.Ticks | reelsclone/src/app/page.js:67-83 | n successive firings of the first running timer only (other running timers do not fire), collecting the reported values and the records handed over |
| Upload.TicksCounts | reelsclone/src/app/page.js:67-83 | at most one value is reported per tick and at most one record handed over per value; the records handed over and the timers still running add up to the timers there were |
| Upload.TicksAdd | reelsclone/src/app/page.js:68-83 | a ticks followed by b ticks are a + b ticks: final state, reported values and handed-over records compose |
| Upload.TransferTicks | reelsclone/src/app/page.js:67-83 | a transfer at p reports p + 10, p + 20, ...; before the tick that reaches 100 nothing is handed over and the counter is shown; at that tick the record is handed over once and the dialog is cleared, other timers untouched |
| Upload.FullTransfer | reelsclone/src/app/page.js:67-83 | a transfer just started hands its record over within ten ticks and clears the dialog, other timers untouched |
| Upload.UploadRuns | reelsclone/src/app/page.js:55-83 | an accepted upload followed by ten ticks reports 10, 20, ..., 100, hands the record over exactly once and leaves the dialog in its initial state |
| Upload.UploadExample | reelsclone/src/app/page.js:55-83 | title "T" with hashtags "a, b" delivers the record titled "T" with ["#a", "#b"] |
| Upload.DoubleSubmitAsWritten | reelsclone/src/app/page.js:124-141 | with the page's guard the button stays enabled after a transfer starts; a second press starts a second transfer and twenty ticks deliver the record twice |
| Upload.TwoTransfers | reelsclone/src/app/page.js:67-83 | two transfers started together deliver both records, in order, within twenty ticks |
| Upload.SingleSubmit | reelsclone/src/app/page.js:67-83 | with the corrected guard an accepted press disables the button, keeps one transfer, and any number of ticks from ten on delivers the record exactly once |
| Upload.TicksAfterIdle | reelsclone/src/app/page.js:71-73 | once no transfer runs, further ticks hand nothing more over |
| Upload.VideoUploadForm.constructor | reelsclone/src/app/page.js:29-34 | the dialog starts closed, with empty fields, on step 1, without file, progress or transfer |
| Upload.VideoUploadForm.Open | reelsclone/src/app/page.js:91 | the upload button opens the popup and changes nothing else |
| Upload.VideoUploadForm.SetTitle | reelsclone/src/app/page.js:106 | typing replaces the title and nothing else |
| Upload.VideoUploadForm.SetTags | reelsclone/src/app/page.js:113 | typing replaces the hashtag field and nothing else |
| Upload.VideoUploadForm.SetVideoFile | reelsclone/src/app/page.js:123-124 | choosing a file replaces the file and nothing else; only allowed while the progress is not strictly between 0 and 100 |
| Upload.VideoUploadForm.HandleNext | reelsclone/src/app/page.js:36-64 | the press updates the fields and returns the outcome exactly as `Next` does, keeping the ranges and the single pending transfer |
| Upload.VideoUploadForm.Tick | reelsclone/src/app/page.js:68-83 | the tick updates the fields, reports the value and hands over the record exactly as `Fire` does, keeping the ranges and the single pending transfer |
| Feed.Prepend | reelsclone/src/app/page.js:264-266 | the feed grows by one, the new record first, the old entries after it unchanged and in order |
| Feed.SampleCopy | reelsclone/src/app/page.js:277-283 | the k-th copy has the given id and the address, title and hashtags of sample k mod 3 |
| Feed.Append | reelsclone/src/app/page.js:281-284 | the feed grows by one, the old entries unchanged and in order, the k-th sample copy last |
| Feed.ExtendCycles | reelsclone/src/app/page.js:277-284 | repeated appends keep the feed and add the j-th copy from sample (k + j) mod 3, so from a fresh page the samples come round as 0, 1, 2, 0, ... |
| Feed.Home.constructor | reelsclone/src/app/page.js:259-261 | the feed starts as the three samples with no copies appended and the dialog in its initial state |
| Feed.Home.HandleUpload | reelsclone/src/app/page.js:264-266 | the feed becomes `Prepend` of the old feed and the record; the counter is unchanged |
| Feed.Home.OnSentinel | reelsclone/src/app/page.js:277-284 | the feed becomes `Append` of the old feed at the old counter with the given id; the counter grows by one |
| Feed.Home.UploadTick | reelsclone/src/app/page.js:73 | a dialog tick performs `Fire`, and a record it hands over is prepended to the feed; otherwise the feed is unchanged |
| Reel.VideoReel.constructor | reelsclone/src/app/page.js:160-161 | a reel starts not liked and muted, the element's sound agreeing |
| Reel.VideoReel.ToggleLike | reelsclone/src/app/page.js:188 | the like flag flips and the sound flags are unchanged |
| Reel.VideoReel.ToggleMute | reelsclone/src/app/page.js:190-195 | the sound flag and the element's muted property flip together and stay in agreement; the like flag is unchanged |

## Left out

- Autoplay of a reel when three quarters of it is in view (reelsclone/src/app/page.js:163-186) and the observer that watches the end of the feed (reelsclone/src/app/page.js:268-293): browser callbacks; only the effect of the end coming into view is modelled, as `Feed.Home.OnSentinel`.
- The alerts: a refusal is returned as an `Alert` value instead of showing its message; the success message is not modelled.
- `Date.now()` and `URL.createObjectURL`: the identifier and the address are parameters. Identifiers are not claimed to be distinct, since two records made in the same millisecond share one.
- The 200 ms period of the interval and the real interleaving of several running intervals: `Upload.Ticks` fires only the first running timer; `Upload.Fire` can fire any.
- Upload.VideoUploadForm.HandleNext: requires the corrected guard (no transfer pending); the page's own guard is modelled by `Upload.AdvanceEnabledAsWritten` and the pure `Upload.Next`, on which the double submission is shown.
- Upload.VideoUploadForm.SetVideoFile: the file input's `accept="video/mp4"` filter of the browser's file chooser is not modelled; the type check of the advance button is.
- Reel.VideoReel.ToggleMute: assumes the video element is mounted; the page skips the element update when its reference is empty, which cannot happen once the reel is rendered.
- The share button (an alert only), the "Shop Now" link, React hook mechanics, JSX rendering and CSS.
- Strings are sequences of Unicode scalar values, while JavaScript strings are sequences of UTF-16 code units: `split(",")` and `trim()` agree on every well-formed string, but a field holding a lone surrogate cannot be represented.
- JavaScript number precision: ids, the copy counter and the progress are unbounded integers; they never approach 2^53 in practice.
- reelsclone/tailwind.config.mjs is styling configuration without behaviour and is not part of this model.
- A back button from the second step to the first, like counts, a remote store and blob uploads do not exist in this code and are not modelled.

## Findings

| source | as written | input that shows it | evidently intended | confidence | as-written member | corrected member |
|---|---|---|---|---|---|---|
| reelsclone/src/app/page.js:124-141 | the advance button is disabled only while 0 < progress < 100, and the progress stays 0 from the press that starts a transfer until the first tick 200 ms later | on step 2 with an MP4 file chosen, press "Upload" twice before the first tick: two intervals run and the same record is prepended to the feed twice | one press delivers one record: the button stays disabled from the press until the transfer completes | medium, not executed | Upload.DoubleSubmitAsWritten | Upload.SingleSubmit |
