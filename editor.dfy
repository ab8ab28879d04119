/** The code editor's keyboard handling on the page: Tab replaces the
    selection with a tab character, Ctrl/Cmd+Enter submits the form. */
module Editor {
  import opened Wrappers

  function Min(a: int, b: int): int { if a <= b then a else b }
  function Max(a: int, b: int): int { if a <= b then b else a }

  /** JavaScript's `s.substring(from, to)`: both bounds are clamped to
      `[0, |s|]` and swapped when out of order. */
  function Substring(s: string, from: int, to: int): (r: string)
    ensures |r| <= |s|
  {
    var a := Max(0, Min(from, |s|));
    var b := Max(0, Min(to, |s|));
    s[Min(a, b)..Max(a, b)]
  }

  /** Within bounds and in order, `substring` is the slice; its bounds may
      be given either way round. */
  lemma SubstringSlice(s: string, from: int, to: int)
    ensures 0 <= from <= to <= |s| ==> Substring(s, from, to) == s[from..to]
    ensures Substring(s, from, to) == Substring(s, to, from)
  {
  }

  /** The text after a Tab keypress: the selection `[start, end)` is
      replaced by one tab character.  Offsets past the end of the text
      count as the end, and an `end` before `start` duplicates nothing:
      the text from `end` on follows the tab. */
  function TabSplice(value: string, start: nat, end: nat): (r: string)
    ensures r == value[..Min(start, |value|)] + "\t" + value[Min(end, |value|)..]
  {
    Substring(value, 0, start) + "\t" + Substring(value, end, |value|)
  }

  /** With a selection inside the text, the splice keeps everything before
      `start` and from `end` on, and puts a tab in between; the caret at
      `start + 1` sits just past the tab. */
  lemma TabReplacesSelection(value: string, start: nat, end: nat)
    requires start <= end <= |value|
    ensures TabSplice(value, start, end) == value[..start] + "\t" + value[end..]
    ensures |TabSplice(value, start, end)| == |value| - (end - start) + 1
    ensures TabSplice(value, start, end)[..start] == value[..start]
    ensures TabSplice(value, start, end)[start] == '\t'
    ensures TabSplice(value, start, end)[start + 1..] == value[end..]
    ensures TabSplice(value, start, end)[..start + 1] == value[..start] + "\t"
  {
    SubstringSlice(value, 0, start);
    SubstringSlice(value, end, |value|);
    var r := TabSplice(value, start, end);
    assert r == value[..start] + "\t" + value[end..];
    assert r[..start] == value[..start];
    assert r[start + 1..] == value[end..];
    assert r[..start + 1] == value[..start] + "\t";
  }

  /** Deleting the tab again leaves the text with the selection removed;
      with no selection, that is the original text. */
  lemma TabUndo(value: string, start: nat, end: nat)
    requires start <= end <= |value|
    ensures var r := TabSplice(value, start, end);
            r[..start] + r[start + 1..] == value[..start] + value[end..]
    ensures start == end ==>
            var r := TabSplice(value, start, end);
            r[..start] + r[start + 1..] == value
  {
    TabReplacesSelection(value, start, end);
    assert value == value[..start] + value[start..];
  }

  /** What a keypress in the editor asks of the page. */
  datatype KeyEffect =
    | Indent(text: string, caret: nat)   // set the code to `text`, then put the caret at `caret`
    | RequestSubmit                      // submit the form
    | Pass                               // let the browser handle the key

  /** `handleKeyDown`: `selectionStart` and `selectionEnd` are `None` when
      the browser reports null, which counts as 0. */
  function OnKeyDown(value: string, key: string, metaKey: bool, ctrlKey: bool,
                     selectionStart: Option<nat>, selectionEnd: Option<nat>): (effect: KeyEffect)
    ensures effect.Indent? <==> key == "Tab"
    ensures effect.RequestSubmit? <==> key == "Enter" && (metaKey || ctrlKey)
    ensures effect.Indent? ==> effect.caret == selectionStart.GetOr(0) + 1
    ensures effect.Indent? ==>
              var start, end := Min(selectionStart.GetOr(0), |value|), Min(selectionEnd.GetOr(0), |value|);
              effect.text == value[..start] + "\t" + value[end..]
  {
    if key == "Tab" then
      var start := selectionStart.GetOr(0);
      Indent(TabSplice(value, start, selectionEnd.GetOr(0)), start + 1)
    else if (metaKey || ctrlKey) && key == "Enter" then RequestSubmit
    else Pass
  }

  /** Tab with a selection inside the text replaces exactly the selected
      characters by one tab and puts the caret just past it. */
  lemma TabKeyReplacesSelection(value: string, metaKey: bool, ctrlKey: bool, start: nat, end: nat)
    requires start <= end <= |value|
    ensures OnKeyDown(value, "Tab", metaKey, ctrlKey, Some(start), Some(end))
            == Indent(value[..start] + "\t" + value[end..], start + 1)
  {
    TabReplacesSelection(value, start, end);
  }

  /** With no selection information at all, Tab inserts a tab at the very
      start of the text and puts the caret after it. */
  lemma TabWithoutSelection(value: string)
    ensures OnKeyDown(value, "Tab", false, false, None, None) == Indent("\t" + value, 1)
  {
    TabReplacesSelection(value, 0, 0);
  }

  /** A browser selection past the end of the text is clamped by
      `substring`, so the tab lands at the end of the text. */
  lemma TabPastEnd(value: string, start: nat, end: nat)
    requires |value| <= start <= end
    ensures TabSplice(value, start, end) == value + "\t"
  {
    assert value[|value|..] == "";
  }
}
