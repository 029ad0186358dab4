/** The list logic of the tag-editor popup (tageditor.go): focus cycling over the popup's
    widgets, the lyric map and option list built from a file's lyric frames, deleting one
    embedded lyric, and the preview shown when the popup opens. Widgets, the focus state of
    the application and the outcome of reading the tag are given as values. */
module TagEditor {
  import opened Wrappers
  import opened Strings
  import opened Sequences

  // ---------------------------------------------------------------- focus cycling

  /** The index focus moves to from `i` among `n` widgets: one forward, wrapping from the last
      to the first, or one back, wrapping from the first to the last. */
  function NextIndex(i: nat, n: nat, reverse: bool): (j: nat)
    requires i < n
    ensures j < n
    ensures !reverse ==> j == if i == n - 1 then 0 else i + 1
    ensures reverse ==> j == if i == 0 then n - 1 else i - 1
  {
    if reverse then (if i - 1 < 0 then n - 1 else i - 1) else (i + 1) % n
  }

  /** Moving forward and then back (or back and then forward) returns to the same widget. */
  lemma NextIndexRoundTrip(i: nat, n: nat)
    requires i < n
    ensures NextIndex(NextIndex(i, n, false), n, true) == i
    ensures NextIndex(NextIndex(i, n, true), n, false) == i
  {
  }

  /** The position of the first widget, in list order, that has focus. */
  function FirstFocused<W>(elements: seq<W>, hasFocus: W -> bool): (r: Option<nat>)
    ensures r.Some? ==> r.value < |elements| && hasFocus(elements[r.value])
    ensures r.Some? ==> forall k :: 0 <= k < r.value ==> !hasFocus(elements[k])
    ensures r.None? ==> forall k :: 0 <= k < |elements| ==> !hasFocus(elements[k])
  {
    if elements == [] then None
    else if hasFocus(elements[0]) then Some(0)
    else match FirstFocused(elements[1..], hasFocus)
      case None => None
      case Some(k) => Some(k + 1)
  }

  /** The application's focus (tview's `SetFocus` target). */
  class App<W> {
    var focus: Option<W>

    constructor (focus: Option<W>)
      ensures this.focus == focus
    {
      this.focus := focus;
    }
  }

  /** `myFlex`: the popup's flex box and the widget it last gave focus to. */
  class FocusFlex<W> {
    var focusedItem: Option<W>

    constructor ()
      ensures focusedItem == None
    {
      focusedItem := None;
    }

    /** `cycleFocus`: the first widget (in list order) that has focus passes it to its
        neighbour; when no widget has focus nothing changes. */
    method CycleFocus(app: App<W>, elements: seq<W>, hasFocus: W -> bool, reverse: bool)
      modifies this, app
      ensures FirstFocused(elements, hasFocus).None? ==>
                focusedItem == old(focusedItem) && app.focus == old(app.focus)
      ensures FirstFocused(elements, hasFocus).Some? ==>
                var j := NextIndex(FirstFocused(elements, hasFocus).value, |elements|, reverse);
                app.focus == Some(elements[j]) && focusedItem == Some(elements[j])
    {
      for i := 0 to |elements|
        invariant forall k :: 0 <= k < i ==> !hasFocus(elements[k])
      {
        if !hasFocus(elements[i]) {
          continue;
        }
        var next: int;
        if reverse {
          next := i - 1;
          if next < 0 {
            next := |elements| - 1;
          }
        } else {
          next := i + 1;
          next := next % |elements|;
        }
        FirstFocusedAt(elements, hasFocus, i);
        app.focus := Some(elements[next]);
        focusedItem := Some(elements[next]);
        return;
      }
    }
  }

  /** The first focused widget is the one at `i` when it has focus and none before it has. */
  lemma FirstFocusedAt<W>(elements: seq<W>, hasFocus: W -> bool, i: nat)
    requires i < |elements| && hasFocus(elements[i])
    requires forall k :: 0 <= k < i ==> !hasFocus(elements[k])
    ensures FirstFocused(elements, hasFocus) == Some(i)
  {
  }

  // ---------------------------------------------------------------- loading the lyric map

  datatype AudioNode = AudioNode(path: string, isAudioFile: bool)

  /** A frame of the "Unsynchronised lyrics/text transcription" kind: a well-formed USLT frame,
      or one that fails the type assertion. */
  datatype Frame = Uslt(descriptor: string, lyrics: string) | Malformed

  /** The failures of `loadTagMap`: the node is not an audio file, the tag could not be opened
      (the library's message, which wrapping keeps), or a lyric frame is malformed (the program
      dies with that message). */
  datatype TagError = NotAnAudioFile | OpenFailed(message: string) | UsltError

  function Message(e: TagError): string {
    match e
    case NotAnAudioFile => "not an audio file"
    case OpenFailed(m) => m
    case UsltError => "USLT error"
  }

  /** The lyric map after the frames `fs` are stored one after another, each under its content
      descriptor. */
  function LyricMap(fs: seq<Frame>): map<string, string>
  {
    if fs == [] then map[]
    else
      var m := LyricMap(fs[..|fs| - 1]);
      match fs[|fs| - 1]
      case Uslt(d, l) => m[d := l]
      case Malformed => m
  }

  /** The map holds exactly the descriptors of the frames. */
  lemma {:induction false} LyricMapKeys(fs: seq<Frame>, d: string)
    ensures d in LyricMap(fs) <==> exists k :: 0 <= k < |fs| && fs[k].Uslt? && fs[k].descriptor == d
  {
    if fs != [] {
      var init := fs[..|fs| - 1];
      LyricMapKeys(init, d);
      if exists k :: 0 <= k < |fs| && fs[k].Uslt? && fs[k].descriptor == d {
        var k :| 0 <= k < |fs| && fs[k].Uslt? && fs[k].descriptor == d;
        if k < |fs| - 1 {
          assert init[k] == fs[k];
        }
      }
    }
  }

  /** When several frames share a descriptor, the last of them supplies the lyrics. */
  lemma {:induction false} LastFrameWins(fs: seq<Frame>, i: nat)
    requires i < |fs| && fs[i].Uslt?
    requires forall k :: i < k < |fs| ==> !(fs[k].Uslt? && fs[k].descriptor == fs[i].descriptor)
    ensures fs[i].descriptor in LyricMap(fs)
    ensures LyricMap(fs)[fs[i].descriptor] == fs[i].lyrics
  {
    if i < |fs| - 1 {
      var init := fs[..|fs| - 1];
      assert init[i] == fs[i];
      LastFrameWins(init, i);
    }
  }

  /** `loadTagMap` after the tag is read: `tagRead` is what opening the tag and listing its
      lyric frames produced. On success the result is the lyric map and its keys, sorted. */
  method LoadTagMap(node: AudioNode, tagRead: Result<seq<Frame>, string>)
    returns (r: Result<(map<string, string>, seq<string>), TagError>)
    ensures !node.isAudioFile ==> r == Failure(NotAnAudioFile) && Message(r.error) == "not an audio file"
    ensures node.isAudioFile && tagRead.Failure? ==>
              r == Failure(OpenFailed(tagRead.error)) && Message(r.error) == tagRead.error
    ensures node.isAudioFile && tagRead.Success? ==>
              (r.Failure? <==> Malformed in tagRead.value)
              && (r.Failure? ==> r.error == UsltError && Message(r.error) == "USLT error")
    ensures r.Success? ==> node.isAudioFile && tagRead.Success? && r.value.0 == LyricMap(tagRead.value)
    ensures r.Success? ==> StrictlySorted(r.value.1)
    ensures r.Success? ==> forall x :: x in r.value.1 <==> x in r.value.0
  {
    if !node.isAudioFile {
      return Failure(NotAnAudioFile);
    }
    if tagRead.Failure? {
      return Failure(OpenFailed(tagRead.error));
    }
    var frames := tagRead.value;
    var lyricMap: map<string, string> := map[];
    for i := 0 to |frames|
      invariant lyricMap == LyricMap(frames[..i])
      invariant Malformed !in frames[..i]
    {
      assert frames[..i + 1][..i] == frames[..i];
      match frames[i]
      case Malformed =>
        return Failure(UsltError);
      case Uslt(d, l) =>
        lyricMap := lyricMap[d := l];
    }
    assert frames[..|frames|] == frames;
    var options: seq<string> := [];
    var remaining := lyricMap.Keys;
    while remaining != {}
      invariant remaining <= lyricMap.Keys
      invariant forall x :: x in options <==> x in lyricMap && x !in remaining
      invariant Distinct(options)
      decreases remaining
    {
      var option :| option in remaining;
      options := options + [option];
      remaining := remaining - {option};
    }
    var sorted := Sort(options);
    DistinctCounts(options);
    DistinctCounts(sorted);
    SortedDistinctIsStrict(sorted);
    forall x ensures x in sorted <==> x in options {
      assert x in sorted <==> x in multiset(sorted);
      assert x in options <==> x in multiset(options);
    }
    return Success((lyricMap, sorted));
  }

  /** Distinctness is having no element more than once. */
  lemma {:induction false} DistinctCounts<T>(s: seq<T>)
    ensures Distinct(s) <==> forall x :: multiset(s)[x] <= 1
  {
    if s != [] {
      DistinctCounts(s[1..]);
      assert s == [s[0]] + s[1..];
      assert multiset(s) == multiset{s[0]} + multiset(s[1..]);
      if Distinct(s) {
        assert Distinct(s[1..]);
        assert s[0] !in s[1..];
      } else {
        var i, j :| 0 <= i < j < |s| && s[i] == s[j];
        if i == 0 {
          assert s[1..][j - 1] == s[0];
          assert s[0] in multiset(s[1..]);
          assert multiset(s)[s[0]] >= 2;
        } else {
          assert s[1..][i - 1] == s[1..][j - 1];
          assert !Distinct(s[1..]);
          var x :| multiset(s[1..])[x] > 1;
          assert multiset(s)[x] > 1;
        }
      }
    }
  }

  // ---------------------------------------------------------------- deleting a lyric

  const NoLyric := "No lyric embeded."

  /** A Go map read: a missing key reads as the empty string. */
  function Lookup(m: map<string, string>, k: string): string {
    if k in m then m[k] else ""
  }

  /** The option list with every occurrence of `x` removed, the rest in their original order. */
  function Without(s: seq<string>, x: string): (r: seq<string>)
    ensures x !in r
    ensures forall y :: y != x ==> (y in r <==> y in s)
  {
    var r := Kept(s, y => y != x);
    forall y ensures y in r <==> y in s && y != x {
      KeptMembers(s, y => y != x, y);
    }
    r
  }

  /** Removing an option keeps a sorted option list sorted. */
  lemma {:induction false} WithoutKeepsSorted(s: seq<string>, x: string)
    requires StrictlySorted(s)
    ensures StrictlySorted(Without(s, x))
  {
    if s != [] {
      var p := (y: string) => y != x;
      WithoutKeepsSorted(s[1..], x);
      var t := Kept(s[1..], p);
      assert Without(s[1..], x) == t;
      forall y | y in t ensures Less(s[0], y) {
        KeptMembers(s[1..], p, y);
        var k :| 0 <= k < |s[1..]| && s[1..][k] == y;
        assert s[k + 1] == y;
      }
    }
  }

  /** The loop of the delete handler that builds the new option list: every option except
      `langExt`, in order. */
  method RemoveOption(options: seq<string>, langExt: string) returns (newOptions: seq<string>)
    ensures newOptions == Without(options, langExt)
  {
    ghost var p := (y: string) => y != langExt;
    newOptions := [];
    for i := 0 to |options|
      invariant newOptions == Kept(options[..i], p)
    {
      assert options[..i + 1] == options[..i] + [options[i]];
      KeptAppend(options[..i], [options[i]], p);
      if options[i] == langExt {
        continue;
      }
      newOptions := newOptions + [options[i]];
    }
    assert options[..|options|] == options;
  }

  /** When the options are the map's keys, removing one option and its map entry keeps them so. */
  lemma WithoutKeepsKeys(options: seq<string>, m: map<string, string>, x: string)
    requires forall y :: y in options <==> y in m
    ensures forall y :: y in Without(options, x) <==> y in m - {x}
  {
  }

  /** The popups the handler opens. */
  datatype Popup = InfoPopup(text: string) | ErrorPopup(text: string)

  /** The state of an open tag editor that the lyric controls show and change. */
  class LyricPanel {
    var options: seq<string>
    var lyricMap: map<string, string>
    /** The drop-down's current option, -1 when it has none. */
    var current: int
    var previewText: string
    var previewTitle: string
    var popup: Option<Popup>

    /** The options are the map's keys, sorted, as `loadTagMap` leaves them. */
    ghost predicate Valid()
      reads this
    {
      StrictlySorted(options) && forall x :: x in options <==> x in lyricMap
    }

    /** The drop-down's current option text (`""` when it has none). */
    function CurrentOption(): string
      reads this
    {
      if 0 <= current < |options| then options[current] else ""
    }

    /** The panel as the popup opens it on a loaded tag: current option 0 and the preview of
        its lyrics. The options are the map's keys, sorted, as a successful `loadTagMap`
        returns them. */
    constructor (lyricMap: map<string, string>, options: seq<string>)
      requires StrictlySorted(options) && forall x :: x in options <==> x in lyricMap
      ensures Valid()
      ensures this.lyricMap == lyricMap && this.options == options
      ensures current == (if options == [] then -1 else 0)
      ensures (previewText, previewTitle) == PreviewOf(lyricMap, CurrentOption())
      ensures popup == None
    {
      this.lyricMap := lyricMap;
      this.options := options;
      current := if options == [] then -1 else 0;
      popup := None;
      var langExt := if options == [] then "" else options[0];
      previewText, previewTitle := PreviewOf(lyricMap, langExt).0, PreviewOf(lyricMap, langExt).1;
    }

    /** The "Delete Lyric" handler. `embedError` is the outcome of removing the frame from the
        file. With options present, the current option is removed from the map and from the
        option list (even when the file could not be updated), the first remaining option
        becomes current and is previewed. With no options only a notice is shown. */
    method DeleteLyric(embedError: Option<string>)
      modifies this
      ensures old(options) == [] ==>
                popup == Some(InfoPopup(NoLyric))
                && options == old(options) && lyricMap == old(lyricMap) && current == old(current)
                && previewText == old(previewText) && previewTitle == old(previewTitle)
      ensures old(options) != [] ==>
                var langExt := old(CurrentOption());
                && popup == Some(if embedError.Some? then ErrorPopup(embedError.value)
                                 else InfoPopup(langExt + " lyric deleted successfully."))
                && lyricMap == old(lyricMap) - {langExt}
                && options == Without(old(options), langExt)
                && current == (if options == [] then -1 else 0)
                && previewText == (if options == [] then NoLyric else Lookup(lyricMap, options[0]))
                && previewTitle == " " + (if options == [] then "" else options[0]) + " lyric preview "
      ensures old(Valid()) ==> Valid()
    {
      var langExt := CurrentOption();
      if |options| > 0 {
        if Valid() {
          WithoutKeepsSorted(options, langExt);
          WithoutKeepsKeys(options, lyricMap, langExt);
        }
        if embedError.Some? {
          popup := Some(ErrorPopup(embedError.value));
        } else {
          popup := Some(InfoPopup(langExt + " lyric deleted successfully."));
        }
        lyricMap := lyricMap - {langExt};
        var newOptions := RemoveOption(options, langExt);
        options := newOptions;
        current := if |newOptions| > 0 then 0 else -1;
        if |newOptions| > 0 {
          langExt := CurrentOption();
          previewText := Lookup(lyricMap, langExt);
          previewTitle := " " + langExt + " lyric preview ";
        } else {
          langExt := "";
          previewText := NoLyric;
          previewTitle := " " + langExt + " lyric preview ";
        }
      } else {
        popup := Some(InfoPopup(NoLyric));
      }
    }
  }

  // ---------------------------------------------------------------- the opening preview

  /** The preview the popup opens with for option `langExt`: its lyrics and label, or, when the
      option has no lyric text, the notice and an empty label. */
  function PreviewOf(lyricMap: map<string, string>, langExt: string): (r: (string, string))
    ensures r.0 != ""
    ensures Lookup(lyricMap, langExt) == "" ==> r == (NoLyric, "  lyric preview ")
    ensures Lookup(lyricMap, langExt) != "" ==> r == (lyricMap[langExt], " " + langExt + " lyric preview ")
  {
    var lyricText := Lookup(lyricMap, langExt);
    var shown := if lyricText == "" then "" else langExt;
    assert " " + "" + " lyric preview " == "  lyric preview ";
    (if lyricText == "" then NoLyric else lyricText, " " + shown + " lyric preview ")
  }
}
