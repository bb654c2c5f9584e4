/**
 * The mobile document card: its link target, its heading, and the height of
 * its preview area, which is derived from the first code unit of the
 * document id so that a grid of cards gets varied but stable heights.
 */
module DocCard {
  import opened Wrappers
  import opened JsValues

  /** The bounds of `calcRowsById`: the row count lies in [MinRows, MaxRows). */
  const MinRows: int := 2
  const MaxRows: int := 8

  /** Height of one preview row, in CSS pixels. */
  const RowHeightPx: int := 18

  /**
   * `calcRowsById`: `Math.floor(id.charCodeAt(0) % (MAX - MIN) + MIN)`,
   * evaluated with JavaScript number semantics. An empty id has no first
   * code unit, so `charCodeAt(0)` is NaN and NaN propagates to the result.
   */
  function CalcRowsById(id: JsString): (rows: Number)
    ensures rows.NaN? <==> |id| == 0
    ensures |id| > 0 ==> rows == Int(id[0] % 6 + 2)
    ensures rows.Finite? ==> MinRows as real <= rows.value < MaxRows as real
  {
    var code := CharCodeAt(id, 0);
    var rows := Floor(Add(Rem(code, Int(MaxRows - MinRows)), Int(MinRows)));
    if |id| == 0 then rows
    else
      RemOfNaturals(id[0], MaxRows - MinRows);
      FloorOfInt(id[0] % (MaxRows - MinRows) + MinRows);
      rows
  }

  /** The row count is decided by the first code unit alone. */
  lemma RowsDependOnlyOnFirstUnit(a: JsString, b: JsString)
    requires |a| > 0 && |b| > 0
    ensures CalcRowsById(a) == CalcRowsById(b) <==> a[0] % 6 == b[0] % 6
  {
  }

  /** Every row count in [MinRows, MaxRows) is produced by some one-unit id. */
  lemma EveryRowCountOccurs(n: int)
    requires MinRows <= n < MaxRows
    ensures exists c: CodeUnit :: CalcRowsById([c]) == Int(n)
  {
    var c: CodeUnit := n - MinRows;
    assert CalcRowsById([c]) == Int(n);
  }

  /** An id starting with 'A' (code unit 65) gets 65 % 6 + 2 = 7 rows, 126px high. */
  lemma LetterAExample(rest: JsString)
    ensures CalcRowsById([65] + rest) == Int(7)
    ensures ContentStyleFor(Some(true), [65] + rest) == Height(Int(126))
  {
  }

  /** The inline style of the preview area. */
  datatype ContentStyle = Flex(grow: int) | Height(px: Number)

  /**
   * The `contentStyle` memo: `flex: 1` unless `autoHeightById` is set, and
   * otherwise a height of `calcRowsById(id) * 18` pixels.
   */
  function ContentStyleFor(autoHeightById: Option<bool>, id: JsString): (style: ContentStyle)
    ensures style == Flex(1) <==> !TruthyBool(autoHeightById)
    ensures TruthyBool(autoHeightById) && |id| == 0 ==> style == Height(NaN)
    ensures TruthyBool(autoHeightById) && |id| > 0 ==>
      style == Height(Int(RowHeightPx * (id[0] % 6 + 2)))
  {
    if !TruthyBool(autoHeightById) then Flex(1)
    else
      var rows := CalcRowsById(id);
      Height(Mul(rows, Int(RowHeightPx)))
  }

  /** A computed height is a whole number of rows: a multiple of 18 in [36, 126]. */
  lemma HeightIsWholeRows(autoHeightById: Option<bool>, id: JsString)
    requires ContentStyleFor(autoHeightById, id).Height?
    requires ContentStyleFor(autoHeightById, id).px.Finite?
    ensures var px := ContentStyleFor(autoHeightById, id).px.value;
      && px == px.Floor as real
      && px.Floor % RowHeightPx == 0
      && 36.0 <= px <= 126.0
  {
  }

  /** The card's link target: `/` followed by the document id. */
  function LinkTarget(id: JsString): (to: JsString)
    ensures |to| == |id| + 1
    ensures to[0] == Slash && to[1..] == id
  {
    [Slash] + id
  }

  /** Distinct documents link to distinct targets. */
  lemma LinkTargetInjective(a: JsString, b: JsString)
    ensures LinkTarget(a) == LinkTarget(b) <==> a == b
  {
  }

  /** What the card heading shows. */
  datatype Heading = Titled(text: JsString) | Untitled

  /** `meta.title || <Untitled/>`: a missing or empty title shows the placeholder. */
  function HeadingFor(title: Option<JsString>): (h: Heading)
    ensures h == Untitled <==> !TruthyString(title)
    ensures h.Titled? ==> h.text == title.value && |h.text| > 0
  {
    if TruthyString(title) then Titled(title.value) else Untitled
  }

  /** A present but empty title behaves exactly like a missing one; any other string title is shown as is. */
  lemma EmptyTitleIsMissingTitle(t: JsString)
    ensures HeadingFor(Some([])) == HeadingFor(None) == Untitled
    ensures |t| > 0 ==> HeadingFor(Some(t)) == Titled(t)
  {
  }
}
