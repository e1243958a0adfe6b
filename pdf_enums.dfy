/**
  The constant tables of the text extractor: the recognised font weights, the delimiter
  glyphs injected into extracted text, and the content-stream operators the extractor
  reacts to (sections 8.4.4, 9.3 and 9.4 of ISO 32000-1), with the membership test and
  iteration order of the byte-valued operator table.
*/
module PdfEnums {
  import opened Wrappers
  import opened Text

  newtype byte = x: int | 0 <= x < 256

  datatype FontWeight = Light | Regular | Bold

  function WeightValue(w: FontWeight): string {
    match w
    case Light => "light"
    case Regular => "regular"
    case Bold => "bold"
  }

  datatype DelimiterGlyph = EndObject | Tab | Precedes | Return | AttributesOpen | AttributesClose

  function GlyphValue(g: DelimiterGlyph): string {
    match g
    case EndObject => "\n"
    case Tab => "⇥"
    case Precedes => "⇤"
    case Return => "↩"
    case AttributesOpen => "《"
    case AttributesClose => "》"
  }

  const DelimiterGlyphs: seq<DelimiterGlyph> := [EndObject, Tab, Precedes, Return, AttributesOpen, AttributesClose]

  /** The glyph values as a set: what `set(DelimiterGlyph)` compares equal to. */
  function GlyphValues(): (r: set<string>)
    ensures forall g :: GlyphValue(g) in r
    ensures forall s :: s in r ==> exists g :: GlyphValue(g) == s
  {
    set g | g in DelimiterGlyphs :: GlyphValue(g)
  }

  datatype Operator =
    | EndTextObject | SaveGraphicsState | RestoreGraphicsState | MoveTextPosition
    | SetFont | ShowTextString | ShowTextStrings

  /** The operator names as ASCII bytes. */
  function OperatorValue(op: Operator): seq<byte> {
    match op
    case EndTextObject => [0x45, 0x54]          // ET
    case SaveGraphicsState => [0x71]            // q
    case RestoreGraphicsState => [0x51]         // Q
    case MoveTextPosition => [0x54, 0x64]       // Td
    case SetFont => [0x54, 0x66]                // Tf
    case ShowTextString => [0x54, 0x6A]         // Tj
    case ShowTextStrings => [0x54, 0x4A]        // TJ
  }

  const Operators: seq<Operator> :=
    [EndTextObject, SaveGraphicsState, RestoreGraphicsState, MoveTextPosition, SetFont, ShowTextString, ShowTextStrings]

  /** A Python object tested for membership in a byte-valued enum: a `bytes` value or anything else. */
  datatype Item = BytesItem(data: seq<byte>) | OtherItem

  /** `BytesEnumMeta.__iter__`: the member values in declaration order. */
  function OperatorValues(): (r: seq<seq<byte>>)
    ensures r == [[0x45, 0x54], [0x71], [0x51], [0x54, 0x64], [0x54, 0x66], [0x54, 0x6A], [0x54, 0x4A]]
  {
    seq(|Operators|, i requires 0 <= i < |Operators| => OperatorValue(Operators[i]))
  }

  /** `BytesEnumMeta.__contains__`: only `bytes` can be members, by value. */
  function OperatorContains(item: Item): bool {
    match item
    case OtherItem => false
    case BytesItem(data) => exists i :: 0 <= i < |Operators| && OperatorValue(Operators[i]) == data
  }

  /** The member whose value is `data`, if any; the dispatch in the extractor compares against each in turn. */
  function OperatorOf(data: seq<byte>): (r: Option<Operator>)
    ensures r.Some? ==> OperatorValue(r.value) == data
    ensures r.None? ==> forall op :: OperatorValue(op) != data
  {
    if data == OperatorValue(EndTextObject) then Some(EndTextObject)
    else if data == OperatorValue(SaveGraphicsState) then Some(SaveGraphicsState)
    else if data == OperatorValue(RestoreGraphicsState) then Some(RestoreGraphicsState)
    else if data == OperatorValue(MoveTextPosition) then Some(MoveTextPosition)
    else if data == OperatorValue(SetFont) then Some(SetFont)
    else if data == OperatorValue(ShowTextString) then Some(ShowTextString)
    else if data == OperatorValue(ShowTextStrings) then Some(ShowTextStrings)
    else None
  }

  // ---------------------------------------------------------------------------
  // Properties of the tables

  /** The six delimiter glyphs are single characters, pairwise distinct, and END_OBJECT is a newline. */
  lemma DelimiterGlyphsDistinct()
    ensures GlyphValue(EndObject) == "\n"
    ensures forall g :: |GlyphValue(g)| == 1
    ensures forall i, j :: 0 <= i < j < |DelimiterGlyphs| ==> GlyphValue(DelimiterGlyphs[i]) != GlyphValue(DelimiterGlyphs[j])
    ensures forall g :: g in DelimiterGlyphs
  {
    forall g ensures g in DelimiterGlyphs {
      match g
      case EndObject => assert DelimiterGlyphs[0] == g;
      case Tab => assert DelimiterGlyphs[1] == g;
      case Precedes => assert DelimiterGlyphs[2] == g;
      case Return => assert DelimiterGlyphs[3] == g;
      case AttributesOpen => assert DelimiterGlyphs[4] == g;
      case AttributesClose => assert DelimiterGlyphs[5] == g;
    }
  }

  /** The weight values are distinct lowercase words, so a substring test on a lowercased name can find them. */
  lemma FontWeightValuesLowercase()
    ensures forall w :: Lower(WeightValue(w)) == WeightValue(w)
    ensures forall w, v :: w != v ==> WeightValue(w) != WeightValue(v)
  {
    forall w ensures Lower(WeightValue(w)) == WeightValue(w) {
      match w
      case Light => assert Lower("light") == "light";
      case Regular => assert Lower("regular") == "regular";
      case Bold => assert Lower("bold") == "bold";
    }
  }

  /** Membership agrees with iteration: an item is a member iff it is `bytes` equal to a yielded value. */
  lemma OperatorContainsRule(item: Item)
    ensures OperatorContains(item) <==> item.BytesItem? && item.data in OperatorValues()
    ensures item.OtherItem? ==> !OperatorContains(item)
  {
    if item.BytesItem? && item.data in OperatorValues() {
      var i :| 0 <= i < |OperatorValues()| && OperatorValues()[i] == item.data;
      assert OperatorValue(Operators[i]) == item.data;
    }
  }

  /** Every operator is a member, and the seven values are pairwise distinct. */
  lemma OperatorsDistinct()
    ensures forall op :: OperatorContains(BytesItem(OperatorValue(op)))
    ensures forall i, j :: 0 <= i < j < |Operators| ==> OperatorValue(Operators[i]) != OperatorValue(Operators[j])
  {
    forall op ensures OperatorContains(BytesItem(OperatorValue(op))) {
      match op
      case EndTextObject => assert Operators[0] == op;
      case SaveGraphicsState => assert Operators[1] == op;
      case RestoreGraphicsState => assert Operators[2] == op;
      case MoveTextPosition => assert Operators[3] == op;
      case SetFont => assert Operators[4] == op;
      case ShowTextString => assert Operators[5] == op;
      case ShowTextStrings => assert Operators[6] == op;
    }
    forall i, j | 0 <= i < j < |Operators|
      ensures OperatorValue(Operators[i]) != OperatorValue(Operators[j])
    {
      var a, b := OperatorValue(Operators[i]), OperatorValue(Operators[j]);
      assert a[|a| - 1] != b[|b| - 1];
    }
  }

  /** Dispatching on an operator's own value finds that operator. */
  lemma OperatorOfValue(op: Operator)
    ensures OperatorOf(OperatorValue(op)) == Some(op)
  {
  }
}
