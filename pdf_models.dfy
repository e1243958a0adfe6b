/**
  The values the text extractor works with: a font selected by `Tf` (section 9.3 of
  ISO 32000-1) with its glyph map and its glyph widths (section 9.6.2: FirstChar,
  LastChar and Widths, in thousandths of a text-space unit), the bounding box of a text
  object, and a finished text object serialised as `content《x_min|x_center|x_max|weight》`
  followed by a newline.
*/
module PdfModels {
  import opened Wrappers
  import opened Text
  import opened PdfEnums

  // ---------------------------------------------------------------------------
  // Fonts

  /**
    A font resource of the page: its base font name, the glyph that its ToUnicode CMap maps
    each character code to (without the entry the CMap parser reserves for itself), and
    its FirstChar, LastChar and Widths entries.
  */
  datatype FontDictionary = FontDictionary(
    baseFont: string,
    toUnicode: map<int, string>,
    firstChar: int,
    lastChar: int,
    widths: seq<int>)

  /** The operands of `Tf` resolved against the page's font resources. */
  datatype Font = Font(font: string, size: real, dictionary: FontDictionary)

  /** `Font.weight`: "bold" anywhere in the lowercased name wins over "light"; otherwise regular. */
  function Weight(f: Font): FontWeight {
    if Contains(Lower(f.font), WeightValue(Bold)) then Bold
    else if Contains(Lower(f.font), WeightValue(Light)) then Light
    else Regular
  }

  /** The glyphs that are also delimiter glyphs: `set(characters) & set(DelimiterGlyph)`. */
  function OverlappingGlyphs(characters: set<string>): set<string> {
    characters * GlyphValues()
  }

  /** `raise_overlapping_glyphs`, which consults only the set of the glyphs it is given. */
  function RaiseOverlappingGlyphs(characters: set<string>): Result<()> {
    if OverlappingGlyphs(characters) != {} then Err(DelimiterGlyphInFont) else Ok(())
  }

  /** `Font.characters`: the glyph map, refused when a glyph is a delimiter glyph. */
  function Characters(f: Font): Result<map<int, string>> {
    match RaiseOverlappingGlyphs(f.dictionary.toUnicode.Values)
    case Err(e) => Err(e)
    case Ok(_) => Ok(f.dictionary.toUnicode)
  }

  /** The width map filled for the codes `first <= idx < upTo`, in increasing order. */
  function WidthsUpTo(characters: map<int, string>, first: int, upTo: int, widths: seq<int>): Result<map<int, int>>
    decreases upTo - first
  {
    if upTo <= first then Ok(map[])
    else
      match WidthsUpTo(characters, first, upTo - 1, widths)
      case Err(e) => Err(e)
      case Ok(m) =>
        var idx := upTo - 1;
        if idx !in characters then Ok(m)
        else if idx - first < |widths| then Ok(m[idx := widths[idx - first]])
        else Err(WidthIndexOutOfRange)
  }

  /** `Font.widths`; the glyph map is consulted only once the range of codes is not empty. */
  function Widths(f: Font): Result<map<int, int>> {
    var d := f.dictionary;
    if d.lastChar < d.firstChar then Ok(map[])
    else
      match Characters(f)
      case Err(e) => Err(e)
      case Ok(cs) => WidthsUpTo(cs, d.firstChar, d.lastChar + 1, d.widths)
  }

  /** `Font.widths`: the loop over `range(first_character, last_character + 1)`. */
  method ComputeWidths(f: Font) returns (r: Result<map<int, int>>)
    ensures r == Widths(f)
  {
    var d := f.dictionary;
    if d.lastChar < d.firstChar {
      return Ok(map[]);
    }
    var characters := Characters(f);
    if characters.Err? {
      return Err(characters.error);
    }
    var cs := characters.value;
    var widths: map<int, int> := map[];
    var idx := d.firstChar;
    while idx < d.lastChar + 1
      invariant d.firstChar <= idx <= d.lastChar + 1
      invariant WidthsUpTo(cs, d.firstChar, idx, d.widths) == Ok(widths)
      decreases d.lastChar + 1 - idx
    {
      if idx in cs {
        if idx - d.firstChar >= |d.widths| {
          WidthsErrSticky(cs, d.firstChar, idx + 1, d.lastChar + 1, d.widths);
          return Err(WidthIndexOutOfRange);
        }
        widths := widths[idx := d.widths[idx - d.firstChar]];
      }
      idx := idx + 1;
    }
    r := Ok(widths);
  }

  /** Once the width loop has failed, a longer range fails the same way. */
  lemma {:induction false} WidthsErrSticky(characters: map<int, string>, first: int, upTo: int, upTo': int, widths: seq<int>)
    requires upTo <= upTo'
    requires WidthsUpTo(characters, first, upTo, widths).Err?
    ensures WidthsUpTo(characters, first, upTo', widths) == WidthsUpTo(characters, first, upTo, widths)
    decreases upTo' - upTo
  {
    if upTo < upTo' {
      WidthsErrSticky(characters, first, upTo, upTo' - 1, widths);
    }
  }

  /** One step of `decode`: look the byte up in the glyph map, then in the width map. */
  function DecodeStep(f: Font): ((string, int), byte) -> Result<(string, int)> {
    (acc: (string, int), b: byte) =>
      match Characters(f)
      case Err(e) => Err(e)
      case Ok(cs) =>
        if b as int !in cs then Err(UnknownCharacterCode)
        else
          match Widths(f)
          case Err(e) => Err(e)
          case Ok(ws) =>
            if b as int !in ws then Err(UnknownCharacterCode)
            else Ok((acc.0 + cs[b as int], acc.1 + ws[b as int]))
  }

  /** What `Font.decode` returns for a byte string: its glyphs and its total width. */
  function Decoded(f: Font, data: seq<byte>): Result<(string, int)> {
    FoldResult(("", 0), data, DecodeStep(f))
  }

  /** `Font.decode`. */
  method Decode(f: Font, data: seq<byte>) returns (r: Result<(string, int)>)
    ensures r == Decoded(f, data)
  {
    var content := "";
    var width := 0;
    for i := 0 to |data|
      invariant FoldResult(("", 0), data[..i], DecodeStep(f)) == Ok((content, width))
    {
      assert data[..i + 1] == data[..i] + [data[i]];
      FoldResultSnoc(("", 0), data[..i], data[i], DecodeStep(f));
      var next := DecodeByte(f, (content, width), data[i]);
      if next.Err? {
        FoldResultErrSticky(("", 0), data[..i + 1], data[i + 1..], DecodeStep(f));
        assert data[..i + 1] + data[i + 1..] == data;
        return Err(next.error);
      }
      content, width := next.value.0, next.value.1;
    }
    assert data[..|data|] == data;
    r := Ok((content, width));
  }

  /** The body of `Font.decode`'s loop: `self.characters[char_idx]` and `self.widths[char_idx]`. */
  method DecodeByte(f: Font, acc: (string, int), b: byte) returns (r: Result<(string, int)>)
    ensures r == DecodeStep(f)(acc, b)
  {
    var characters := Characters(f);
    if characters.Err? {
      return Err(characters.error);
    }
    if b as int !in characters.value {
      return Err(UnknownCharacterCode);
    }
    var widths := Widths(f);
    if widths.Err? {
      return Err(widths.error);
    }
    if b as int !in widths.value {
      return Err(UnknownCharacterCode);
    }
    r := Ok((acc.0 + characters.value[b as int], acc.1 + widths.value[b as int]));
  }

  /** A PDF operand as the content-stream parser delivers it. */
  datatype Operand = Number(x: real) | Name(name: string) | Bytes(data: seq<byte>) | Array(items: seq<Operand>)

  /** `Font.from_operands`: exactly two operands, a font resource name and a size. */
  function FromOperands(operands: seq<Operand>, fonts: map<string, FontDictionary>): Result<Font> {
    if |operands| != 2 then Err(WrongOperandCount)
    else if !operands[0].Name? || operands[0].name !in fonts then Err(UnknownFontResource)
    else if !operands[1].Number? then Err(BadOperand)
    else
      var d := fonts[operands[0].name];
      Ok(Font(d.baseFont, operands[1].x, d))
  }

  // ---------------------------------------------------------------------------
  // Bounding boxes

  /** `math.ceil`. */
  function Ceil(x: real): (r: int)
    ensures x <= r as real < x + 1.0
  {
    -((-x).Floor)
  }

  datatype BoundingBox = BoundingBox(xMin: int, yMin: int, width: int, height: int)

  function XMax(b: BoundingBox): int {
    b.xMin + b.width
  }

  function YMax(b: BoundingBox): int {
    b.yMin + b.height
  }

  /** `ceil(x_min + width / 2)`, with Python's true division. */
  function XCenter(b: BoundingBox): int {
    Ceil(b.xMin as real + b.width as real / 2.0)
  }

  function YCenter(b: BoundingBox): int {
    Ceil(b.yMin as real + b.height as real / 2.0)
  }

  // ---------------------------------------------------------------------------
  // Text objects

  datatype TextObject = TextObject(content: string, font: Option<Font>, boundingBox: Option<BoundingBox>)

  /** `TextObject()`. */
  const EmptyTextObject: TextObject := TextObject("", None, None)

  /** The attributes between the two attribute glyphs: `x_min|x_center|x_max|weight`. */
  function AttributeFields(b: BoundingBox, w: FontWeight): seq<string> {
    [IntToString(b.xMin), IntToString(XCenter(b)), IntToString(XMax(b)), WeightValue(w)]
  }

  /** `TextObject.serialize` (`str(attr).strip()` changes none of the four attributes). */
  function Serialize(t: TextObject): Result<string> {
    if t.font.None? || t.boundingBox.None? then Err(MissingFontOrBoundingBox)
    else
      Ok(t.content + GlyphValue(AttributesOpen) + Join('|', AttributeFields(t.boundingBox.value, Weight(t.font.value)))
         + GlyphValue(AttributesClose) + GlyphValue(EndObject))
  }
  /** Reads a serialised text object back: its content and its `|`-separated attributes. */
  function ParseSerialized(s: string): Option<(string, seq<string>)> {
    if |s| < 2 || s[|s| - 2..] != GlyphValue(AttributesClose) + GlyphValue(EndObject) then None
    else
      var body := s[..|s| - 2];
      match LastIndexOf(body, '《')
      case None => None
      case Some(i) => Some((body[..i], Split(body[i + 1..], '|')))
  }

  // ---------------------------------------------------------------------------
  // Properties

  /** Bold wins when both words occur; light needs "light" without "bold"; regular needs neither. */
  lemma WeightRule(f: Font)
    ensures Weight(f) == Bold <==> Contains(Lower(f.font), "bold")
    ensures Weight(f) == Light <==> !Contains(Lower(f.font), "bold") && Contains(Lower(f.font), "light")
    ensures Weight(f) == Regular <==> !Contains(Lower(f.font), "bold") && !Contains(Lower(f.font), "light")
  {
  }

  /** The check fails exactly when one of the glyphs is a delimiter glyph. */
  lemma RaiseOverlappingGlyphsRule(characters: set<string>)
    ensures RaiseOverlappingGlyphs(characters).Err? <==> exists g :: GlyphValue(g) in characters
    ensures RaiseOverlappingGlyphs(characters).Err? ==> RaiseOverlappingGlyphs(characters).error == DelimiterGlyphInFont
  {
    if exists g :: GlyphValue(g) in characters {
      var g :| GlyphValue(g) in characters;
      assert GlyphValue(g) in OverlappingGlyphs(characters);
    }
  }

  /** A glyph map the font accepts maps no code to a delimiter glyph. */
  lemma CharactersExcludeDelimiters(f: Font, code: int, g: DelimiterGlyph)
    requires Characters(f).Ok? && code in Characters(f).value
    ensures Characters(f).value[code] != GlyphValue(g)
  {
    RaiseOverlappingGlyphsRule(f.dictionary.toUnicode.Values);
    assert f.dictionary.toUnicode[code] in f.dictionary.toUnicode.Values;
  }

  /** The width loop over `first <= idx < upTo`: its domain, its values and when it fails. */
  lemma {:induction false} WidthsUpToRule(characters: map<int, string>, first: int, upTo: int, widths: seq<int>)
    ensures WidthsUpTo(characters, first, upTo, widths).Err? <==>
              exists idx :: first <= idx < upTo && idx in characters && idx - first >= |widths|
    ensures WidthsUpTo(characters, first, upTo, widths).Err? ==>
              WidthsUpTo(characters, first, upTo, widths).error == WidthIndexOutOfRange
    ensures WidthsUpTo(characters, first, upTo, widths).Ok? ==>
              var m := WidthsUpTo(characters, first, upTo, widths).value;
              && (forall idx :: idx in m <==> first <= idx < upTo && idx in characters)
              && (forall idx :: idx in m ==> 0 <= idx - first < |widths| && m[idx] == widths[idx - first])
    decreases upTo - first
  {
    if upTo > first {
      WidthsUpToRule(characters, first, upTo - 1, widths);
    }
  }

  /**
    `Font.widths`: the codes in `[FirstChar, LastChar]` that are character codes, each mapped
    to its entry of Widths; it fails when such a code lies beyond the end of Widths, or when
    the range is not empty and the glyph map is refused.
  */
  lemma WidthsRule(f: Font)
    ensures var d := f.dictionary;
            Widths(f).Err? <==>
              d.firstChar <= d.lastChar &&
              (Characters(f).Err? ||
               exists idx :: d.firstChar <= idx <= d.lastChar && idx in d.toUnicode && idx - d.firstChar >= |d.widths|)
    ensures var d := f.dictionary;
            Widths(f).Ok? ==>
              && (forall idx :: idx in Widths(f).value <==> d.firstChar <= idx <= d.lastChar && idx in d.toUnicode)
              && (forall idx :: idx in Widths(f).value ==> Widths(f).value[idx] == d.widths[idx - d.firstChar])
  {
    var d := f.dictionary;
    if d.firstChar <= d.lastChar && Characters(f).Ok? {
      WidthsUpToRule(d.toUnicode, d.firstChar, d.lastChar + 1, d.widths);
    }
  }

  /** The glyphs of the bytes, in order. */
  function Glyphs(characters: map<int, string>, data: seq<byte>): string
    decreases |data|
  {
    if data == [] then ""
    else
      var b := data[|data| - 1];
      Glyphs(characters, data[..|data| - 1]) + (if b as int in characters then characters[b as int] else "")
  }

  /** The sum of the widths of the bytes. */
  function TotalWidth(widths: map<int, int>, data: seq<byte>): int
    decreases |data|
  {
    if data == [] then 0
    else
      var b := data[|data| - 1];
      TotalWidth(widths, data[..|data| - 1]) + (if b as int in widths then widths[b as int] else 0)
  }

  /**
    `decode` succeeds exactly when every byte is in both maps, and then returns the
    concatenated glyphs and the summed widths.
  */
  lemma {:induction false} DecodeRule(f: Font, data: seq<byte>, cs: map<int, string>, ws: map<int, int>)
    requires Characters(f) == Ok(cs) && Widths(f) == Ok(ws)
    ensures Decoded(f, data).Ok? <==> forall i :: 0 <= i < |data| ==> data[i] as int in cs && data[i] as int in ws
    ensures Decoded(f, data).Err? ==> Decoded(f, data).error == UnknownCharacterCode
    ensures Decoded(f, data).Ok? ==> Decoded(f, data).value == (Glyphs(cs, data), TotalWidth(ws, data))
    decreases |data|
  {
    if data != [] {
      var prefix := data[..|data| - 1];
      DecodeRule(f, prefix, cs, ws);
      assert forall i :: 0 <= i < |prefix| ==> prefix[i] == data[i];
    }
  }

  /** Decoding two byte strings one after the other is decoding their concatenation. */
  lemma DecodeAppend(f: Font, a: seq<byte>, b: seq<byte>, cs: map<int, string>, ws: map<int, int>)
    requires Characters(f) == Ok(cs) && Widths(f) == Ok(ws)
    requires Decoded(f, a).Ok? && Decoded(f, b).Ok?
    ensures Decoded(f, a + b) == Ok((Decoded(f, a).value.0 + Decoded(f, b).value.0,
                                     Decoded(f, a).value.1 + Decoded(f, b).value.1))
  {
    DecodeRule(f, a, cs, ws);
    DecodeRule(f, b, cs, ws);
    DecodeRule(f, a + b, cs, ws);
    GlyphsAppend(cs, a, b);
    TotalWidthAppend(ws, a, b);
  }

  lemma {:induction false} GlyphsAppend(cs: map<int, string>, a: seq<byte>, b: seq<byte>)
    ensures Glyphs(cs, a + b) == Glyphs(cs, a) + Glyphs(cs, b)
    decreases |b|
  {
    if b == [] {
      assert a + b == a;
    } else {
      assert (a + b)[..|a + b| - 1] == a + b[..|b| - 1];
      GlyphsAppend(cs, a, b[..|b| - 1]);
    }
  }

  lemma {:induction false} TotalWidthAppend(ws: map<int, int>, a: seq<byte>, b: seq<byte>)
    ensures TotalWidth(ws, a + b) == TotalWidth(ws, a) + TotalWidth(ws, b)
    decreases |b|
  {
    if b == [] {
      assert a + b == a;
    } else {
      assert (a + b)[..|a + b| - 1] == a + b[..|b| - 1];
      TotalWidthAppend(ws, a, b[..|b| - 1]);
    }
  }

  /** `from_operands` refuses any operand count but two, and otherwise takes name and size as given. */
  lemma FromOperandsRule(operands: seq<Operand>, fonts: map<string, FontDictionary>)
    ensures |operands| != 2 ==> FromOperands(operands, fonts) == Err(WrongOperandCount)
    ensures FromOperands(operands, fonts).Ok? ==>
              && |operands| == 2 && operands[0].Name? && operands[0].name in fonts && operands[1].Number?
              && FromOperands(operands, fonts).value
                 == Font(fonts[operands[0].name].baseFont, operands[1].x, fonts[operands[0].name])
  {
  }

  /** The ceiling validator leaves an integer as it is. */
  lemma CeilInt(n: int)
    ensures Ceil(n as real) == n
  {
  }

  /**
    On integer fields `ceil(x_min + width / 2)` is `x_min + ceil(width / 2)`, which lies
    between `x_min` and `x_max` when the width is not negative; the same holds vertically.
  */
  lemma BoundingBoxCenters(b: BoundingBox)
    ensures XCenter(b) == b.xMin + (b.width + 1) / 2
    ensures YCenter(b) == b.yMin + (b.height + 1) / 2
    ensures b.width >= 0 ==> b.xMin <= XCenter(b) <= XMax(b)
    ensures b.height >= 0 ==> b.yMin <= YCenter(b) <= YMax(b)
  {
    HalfCeil(b.xMin, b.width);
    HalfCeil(b.yMin, b.height);
  }

  lemma HalfCeil(lo: int, w: int)
    ensures Ceil(lo as real + w as real / 2.0) == lo + (w + 1) / 2
  {
    var c := lo + (w + 1) / 2;
    var q := (w + 1) / 2;
    assert 2 * q == w || 2 * q == w + 1;
    assert lo as real + w as real / 2.0 <= c as real < lo as real + w as real / 2.0 + 1.0;
  }

  /** None of the attributes holds the separator or the attribute-open glyph. */
  lemma AttributeFieldsClean(b: BoundingBox, w: FontWeight)
    ensures forall p :: p in AttributeFields(b, w) ==> '|' !in p && '《' !in p
  {
    IntToStringNoSeparator(b.xMin, '|');
    IntToStringNoSeparator(XCenter(b), '|');
    IntToStringNoSeparator(XMax(b), '|');
    IntToStringNoSeparator(b.xMin, '《');
    IntToStringNoSeparator(XCenter(b), '《');
    IntToStringNoSeparator(XMax(b), '《');
    assert '|' !in WeightValue(w) && '《' !in WeightValue(w);
  }

  /** A serialised object is read by dropping its closing glyphs and splitting at the last attribute-open glyph. */
  lemma ParseSerializedFrame(body: string)
    ensures ParseSerialized(body + "》\n")
            == match LastIndexOf(body, '《')
               case None => None
               case Some(i) => Some((body[..i], Split(body[i + 1..], '|')))
  {
    var s := body + "》\n";
    assert GlyphValue(AttributesClose) + GlyphValue(EndObject) == "》\n";
    assert s[|s| - 2..] == "》\n" && s[..|s| - 2] == body;
  }

  /** The reading of a serialised object inverts its layout when neither part holds the delimiters. */
  lemma ParseSerializedLayout(content: string, fields: seq<string>)
    requires '《' !in content && |fields| > 0
    requires forall p :: p in fields ==> '|' !in p && '《' !in p
    ensures ParseSerialized(content + "《" + Join('|', fields) + "》" + "\n") == Some((content, fields))
  {
    var attrs := Join('|', fields);
    JoinNoChar('|', fields, '《');
    SplitJoin(fields, '|');
    var body := content + ['《'] + attrs;
    assert content + "《" + attrs + "》" + "\n" == body + "》\n";
    LastIndexOfAfter(content, '《', attrs);
    ParseSerializedFrame(body);
    assert body[..|content|] == content && body[|content| + 1..] == attrs;
  }

  /**
    A serialised text object reads back: the last attribute-open glyph ends the content
    (the content holds none), and the attributes split back into `x_min`, `x_center`,
    `x_max` and the weight, the three numbers parsing back to their values.
  */
  lemma SerializeRoundTrip(t: TextObject)
    requires t.font.Some? && t.boundingBox.Some?
    requires '《' !in t.content
    ensures Serialize(t).Ok?
    ensures ParseSerialized(Serialize(t).value)
            == Some((t.content, AttributeFields(t.boundingBox.value, Weight(t.font.value))))
    ensures var b := t.boundingBox.value;
            && ParseInt(IntToString(b.xMin)) == Some(b.xMin)
            && ParseInt(IntToString(XCenter(b))) == Some(XCenter(b))
            && ParseInt(IntToString(XMax(b))) == Some(XMax(b))
  {
    var b, w := t.boundingBox.value, Weight(t.font.value);
    AttributeFieldsClean(b, w);
    assert Serialize(t).value == t.content + "《" + Join('|', AttributeFields(b, w)) + "》" + "\n";
    ParseSerializedLayout(t.content, AttributeFields(b, w));
    ParseIntRoundTrip(b.xMin);
    ParseIntRoundTrip(XCenter(b));
    ParseIntRoundTrip(XMax(b));
  }
}
