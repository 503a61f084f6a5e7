/**
 * Bitmap-font construction: a font is accepted only when all of its glyphs have one common
 * height and one common width. Each refusal is the corresponding panic of `Font::new`.
 */
module Fonts {
  import opened Wrappers

  /** A glyph: its code and its rows of pixel values. */
  datatype Character = Character(value: Byte, data: seq<seq<Byte>>) {

    /** The width is the length of the FIRST row; later rows are not looked at. */
    function Width(): nat
      requires |data| > 0
    {
      |data[0]|
    }

    function Height(): nat { |data| }
  }

  /** However many rows follow, a glyph's width is the length of its first row. */
  lemma WidthIsFirstRow(value: Byte, first: seq<Byte>, rest: seq<seq<Byte>>)
    ensures Character(value, [first] + rest).Width() == |first|
    ensures Character(value, [first] + rest).Height() == 1 + |rest|
  {
  }

  datatype Font = Font(width: nat, height: nat, chars: seq<Character>)

  /** Why `Font::new` panics. */
  datatype FontError =
    | NoCharacters                      // `min()` of an empty iterator is unwrapped
    | HeightMismatch(min: nat, max: nat)
    | NoRows                            // every glyph has zero rows, so `data[0]` is out of bounds
    | WidthMismatch(min: nat, max: nat)

  function MinOf(s: seq<nat>): (m: nat)
    requires |s| > 0
    ensures m in s && forall i :: 0 <= i < |s| ==> m <= s[i]
  {
    if |s| == 1 then s[0]
    else
      var m := MinOf(s[1..]);
      if s[0] <= m then s[0] else m
  }

  function MaxOf(s: seq<nat>): (m: nat)
    requires |s| > 0
    ensures m in s && forall i :: 0 <= i < |s| ==> s[i] <= m
  {
    if |s| == 1 then s[0]
    else
      var m := MaxOf(s[1..]);
      if s[0] >= m then s[0] else m
  }

  function Heights(chars: seq<Character>): (hs: seq<nat>)
    ensures |hs| == |chars| && forall i :: 0 <= i < |chars| ==> hs[i] == chars[i].Height()
  {
    seq(|chars|, i requires 0 <= i < |chars| => chars[i].Height())
  }

  function Widths(chars: seq<Character>): (ws: seq<nat>)
    requires forall i :: 0 <= i < |chars| ==> |chars[i].data| > 0
    ensures |ws| == |chars| && forall i :: 0 <= i < |chars| ==> ws[i] == chars[i].Width()
  {
    seq(|chars|, i requires 0 <= i < |chars| => chars[i].Width())
  }

  ghost predicate SameHeight(chars: seq<Character>) {
    forall i, j :: 0 <= i < |chars| && 0 <= j < |chars| ==> chars[i].Height() == chars[j].Height()
  }

  ghost predicate SameWidth(chars: seq<Character>)
    requires forall i :: 0 <= i < |chars| ==> |chars[i].data| > 0
  {
    forall i, j :: 0 <= i < |chars| && 0 <= j < |chars| ==> chars[i].Width() == chars[j].Width()
  }

  /** The range a mismatch reports really is the spread of the values it was computed from. */
  ghost predicate IsSpread(s: seq<nat>, lo: nat, hi: nat) {
    lo < hi && lo in s && hi in s && forall i :: 0 <= i < |s| ==> lo <= s[i] <= hi
  }

  /**
   * `Font::new`. Heights are checked before widths, so a font whose heights differ is always
   * reported as a height mismatch whatever its widths are. On success the font's dimensions
   * are those of every glyph and the glyph list is kept as given (NewFontAccepts,
   * NewFontHeightMismatch and NewFontWidthMismatch state it).
   */
  function NewFont(chars: seq<Character>): (r: Result<Font, FontError>)
    ensures r == Err(NoCharacters) <==> chars == []
  {
    if chars == [] then Err(NoCharacters)
    else
      var minHeight, maxHeight := MinOf(Heights(chars)), MaxOf(Heights(chars));
      if maxHeight != minHeight then Err(HeightMismatch(minHeight, maxHeight))
      else if minHeight == 0 then Err(NoRows)
      else
        var minWidth, maxWidth := MinOf(Widths(chars)), MaxOf(Widths(chars));
        if maxWidth != minWidth then Err(WidthMismatch(minWidth, maxWidth))
        else Ok(Font(minWidth, minHeight, chars))
  }

  /** The smallest and largest of a sequence agree exactly when all its values do; otherwise they are its spread. */
  lemma MinMaxSpread(s: seq<nat>)
    requires |s| > 0
    ensures MinOf(s) == MaxOf(s) <==> forall i, j :: 0 <= i < |s| && 0 <= j < |s| ==> s[i] == s[j]
    ensures MinOf(s) != MaxOf(s) ==> IsSpread(s, MinOf(s), MaxOf(s))
  {
    var lo, hi := MinOf(s), MaxOf(s);
    if lo != hi {
      var a :| 0 <= a < |s| && s[a] == lo;
      var b :| 0 <= b < |s| && s[b] == hi;
      assert s[a] != s[b];
    }
  }

  /** When the glyphs share one positive height, every glyph has a first row. */
  lemma RowsPresent(chars: seq<Character>)
    requires chars != [] && SameHeight(chars) && chars[0].Height() > 0
    ensures forall i :: 0 <= i < |chars| ==> |chars[i].data| > 0
  {
    forall i | 0 <= i < |chars| ensures |chars[i].data| > 0 {
      assert chars[i].Height() == chars[0].Height();
    }
  }

  /** A font is built exactly when the glyphs share one positive height and one width, and it then has their dimensions. */
  lemma NewFontAccepts(chars: seq<Character>)
    ensures NewFont(chars).Ok? <==>
      chars != [] && SameHeight(chars) && chars[0].Height() > 0 &&
      (RowsPresent(chars); SameWidth(chars))
    ensures NewFont(chars).Ok? ==>
      var font := NewFont(chars).value;
      font.chars == chars &&
      forall i :: 0 <= i < |chars| ==> chars[i].Height() == font.height && chars[i].Width() == font.width
  {
    if chars != [] {
      MinMaxSpread(Heights(chars));
      if SameHeight(chars) && chars[0].Height() > 0 {
        RowsPresent(chars);
        MinMaxSpread(Widths(chars));
      }
    }
  }

  /** Glyphs of different heights are refused with the smallest and the largest height. */
  lemma NewFontHeightMismatch(chars: seq<Character>)
    requires chars != [] && !SameHeight(chars)
    ensures NewFont(chars).Err? && NewFont(chars).error.HeightMismatch?
    ensures IsSpread(Heights(chars), NewFont(chars).error.min, NewFont(chars).error.max)
  {
    MinMaxSpread(Heights(chars));
  }

  /** A width mismatch is reported only for glyphs of one positive height, with the smallest and the largest width. */
  lemma NewFontWidthMismatch(chars: seq<Character>)
    requires NewFont(chars).Err? && NewFont(chars).error.WidthMismatch?
    ensures SameHeight(chars) && chars[0].Height() > 0
    ensures (RowsPresent(chars);
      !SameWidth(chars) && IsSpread(Widths(chars), NewFont(chars).error.min, NewFont(chars).error.max))
  {
    var hs := Heights(chars);
    assert SameHeight(chars) && chars[0].Height() > 0 by {
      assert chars != [] && MinOf(hs) == MaxOf(hs) && MinOf(hs) != 0;
      MinMaxSpread(hs);
      assert chars[0].Height() == hs[0] >= MinOf(hs);
    }
    RowsPresent(chars);
    var ws := Widths(chars);
    assert NewFont(chars) == Err(WidthMismatch(MinOf(ws), MaxOf(ws))) by {
      MinMaxSpread(hs);
    }
    MinMaxSpread(ws);
  }

  /** A glyph with ragged rows is accepted: only its first row decides its width. */
  lemma RaggedGlyphAccepted()
    ensures NewFont([Character(65, [[1, 1], [1]])]) == Ok(Font(2, 2, [Character(65, [[1, 1], [1]])]))
  {
    var chars := [Character(65, [[1, 1], [1]])];
    assert Heights(chars) == [2];
    assert Widths(chars) == [2];
  }

  /** Two glyphs that differ in both dimensions are refused for their heights. */
  lemma HeightCheckedFirst()
    ensures NewFont([Character(65, [[1]]), Character(66, [[1, 1], [1, 1]])]) == Err(HeightMismatch(1, 2))
  {
    var chars := [Character(65, [[1]]), Character(66, [[1, 1], [1, 1]])];
    assert Heights(chars) == [1, 2];
  }
}
