/**
 * The text-area state (`TextareaState` in Markdown.Editor.js) reduced to its
 * text, selection bounds and scroll position, and the two conversions between
 * it and a chunk: `getChunks` and `setChunks`.
 */
module Textarea {
  import opened Strings
  import opened Chunks

  /** A snapshot of the text area: what the undo history stores. */
  datatype State = State(text: string, start: int, end: int, scrollTop: int)

  /** The regions `getChunks` cuts a state into (the tags start empty). */
  function RegionsOf(st: State): (r: Regions)
    ensures r.startTag == [] && r.endTag == []
    ensures '\r' !in r.before && '\r' !in r.selection && '\r' !in r.after
    ensures '\r' !in st.text && 0 <= st.start <= st.end <= |st.text| ==>
              r.before == st.text[..st.start] && r.selection == st.text[st.start..st.end] && r.after == st.text[st.end..]
  {
    Regions(FixEolChars(Substring(st.text, 0, st.start)), "",
            FixEolChars(Substring(st.text, st.start, st.end)), "",
            FixEolChars(Substring(st.text, st.end, |st.text|)))
  }

  /** The state `setChunks` writes: the tags are folded into `before` and `after`. */
  function StateOf(r: Regions, scrollTop: int): (st: State)
    ensures st.text == r.Text()
    ensures st.start == |r.before| + |r.startTag|
    ensures st.end == st.start + |r.selection|
    ensures 0 <= st.start <= st.end <= |st.text| && st.scrollTop == scrollTop
  {
    var before := r.before + r.startTag;
    var after := r.endTag + r.after;
    State(before + r.selection + after, |before|, |before| + |r.selection|, scrollTop)
  }

  /**
   * Cutting a state into regions and writing them back gives the same state,
   * for text without carriage returns and a selection within the text.
   */
  lemma StateOfRegionsOf(st: State)
    requires '\r' !in st.text && 0 <= st.start <= st.end <= |st.text|
    ensures StateOf(RegionsOf(st), st.scrollTop) == st
  {
    var a, b, c := st.text[..st.start], st.text[st.start..st.end], st.text[st.end..];
    assert RegionsOf(st) == Regions(a, "", b, "", c);
    StateOfCut(st);
  }

  lemma StateOfCut(st: State)
    requires 0 <= st.start <= st.end <= |st.text|
    ensures StateOf(Regions(st.text[..st.start], "", st.text[st.start..st.end], "", st.text[st.end..]), st.scrollTop) == st
  {
    assert st.text == st.text[..st.start] + st.text[st.start..st.end] + st.text[st.end..];
  }

  /**
   * Writing regions back and cutting the state again gives the regions with
   * the tags folded into `before` and `after`, when the text has no carriage returns.
   */
  lemma RegionsOfStateOf(r: Regions, scrollTop: int)
    requires '\r' !in r.Text()
    ensures RegionsOf(StateOf(r, scrollTop)) == Regions(r.before + r.startTag, "", r.selection, "", r.endTag + r.after)
  {
    var st := StateOf(r, scrollTop);
    var before := r.before + r.startTag;
    var after := r.endTag + r.after;
    assert st.text[..st.start] == before;
    assert st.text[st.start..st.end] == r.selection;
    assert st.text[st.end..] == after;
  }

  /** The text area's state object. */
  class TextareaState {
    var text: string
    var start: int
    var end: int
    var scrollTop: int

    /** The state as a value. */
    function Value(): State
      reads this
    {
      State(text, start, end, scrollTop)
    }

    constructor (st: State)
      ensures Value() == st
    {
      text, start, end, scrollTop := st.text, st.start, st.end, st.scrollTop;
    }

    /** `getChunks`: a new chunk holding the regions of this state. */
    method GetChunks() returns (chunk: Chunk)
      ensures fresh(chunk)
      ensures chunk.Value() == RegionsOf(Value()) && chunk.scrollTop == scrollTop
    {
      chunk := new Chunk(Regions("", "", "", "", ""), scrollTop);
      chunk.before := FixEolChars(Substring(text, 0, start));
      chunk.startTag := "";
      chunk.selection := FixEolChars(Substring(text, start, end));
      chunk.endTag := "";
      chunk.after := FixEolChars(Substring(text, end, |text|));
    }

    /**
     * `setChunks`: the chunk's tags are folded into its `before` and `after`
     * (the chunk is changed too), and this state takes its text and selection.
     */
    method SetChunks(chunk: Chunk)
      modifies this, chunk
      ensures chunk.Value() == Regions(old(chunk.before + chunk.startTag), old(chunk.startTag), old(chunk.selection),
                                       old(chunk.endTag), old(chunk.endTag + chunk.after))
      ensures Value() == StateOf(old(chunk.Value()), old(chunk.scrollTop)) && chunk.scrollTop == old(chunk.scrollTop)
    {
      chunk.before := chunk.before + chunk.startTag;
      chunk.after := chunk.endTag + chunk.after;
      start := |chunk.before|;
      end := |chunk.before| + |chunk.selection|;
      text := chunk.before + chunk.selection + chunk.after;
      scrollTop := chunk.scrollTop;
    }
  }
}
