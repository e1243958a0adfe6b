/**
  The text-extraction state machine of one page. It reacts to the content-stream operators
  `ET`, `Td`, `Tj` and `TJ` (section 9.4 of ISO 32000-1), `Tf` (section 9.3) and `q`/`Q`
  (section 8.4.4). It keeps a font stack and an in-progress text object, and it injects
  delimiter glyphs where the text moves to a new line or jumps sideways.
*/
module PdfReader {
  import opened Wrappers
  import opened Text
  import opened PdfEnums
  import opened PdfModels

  /** The default thresholds of `_move_text_position`. */
  const XThreshold: real := 0.3
  const YThreshold: real := 1.0

  function Abs(x: real): real {
    if x < 0.0 then -x else x
  }

  /** Everything a `Page` updates while its content stream is read. */
  datatype PageState = PageState(
    textObjects: seq<TextObject>,
    current: TextObject,
    font: Option<Font>,
    fontStack: seq<Option<Font>>,
    xDisplacement: real,
    tdX: real,
    tdY: real)

  /** The state `Page.__init__` leaves. */
  const Initial: PageState := PageState([], EmptyTextObject, None, [], 0.0, 0.0, 0.0)

  /** One content-stream operation, with the translation row of the text matrix times the CTM. */
  datatype Instruction = Instruction(operator: seq<byte>, operands: seq<Operand>, origin: (real, real))

  // ---------------------------------------------------------------------------
  // The handlers, as functions of the page state

  /** The object `_end_text_object` appends: one trailing return glyph dropped, then stripped, then the font. */
  function Finished(t: TextObject, font: Option<Font>): TextObject {
    t.(content := Strip(DropReturn(t.content)), font := font)
  }

  /** `content[:-1]` when the content ends with the return glyph. */
  function DropReturn(content: string): string {
    if EndsWith(content, GlyphValue(Return)) then content[..|content| - 1] else content
  }

  function EndTextObjectStep(s: PageState): PageState {
    s.(textObjects := if s.current.content != "" then s.textObjects + [Finished(s.current, s.font)] else s.textObjects,
       current := EmptyTextObject,
       xDisplacement := 0.0)
  }

  function SaveGraphicsStateStep(s: PageState): PageState {
    s.(fontStack := s.fontStack + [s.font])
  }

  /** `Q` closes the text object first, then pops the font; popping an empty stack fails. */
  function RestoreGraphicsStateStep(s: PageState): Result<PageState> {
    var e := EndTextObjectStep(s);
    if e.fontStack == [] then Err(EmptyFontStack)
    else Ok(e.(font := e.fontStack[|e.fontStack| - 1], fontStack := e.fontStack[..|e.fontStack| - 1]))
  }

  /** Appends a delimiter glyph to the in-progress text. */
  function AddGlyph(t: TextObject, g: DelimiterGlyph): TextObject {
    t.(content := t.content + GlyphValue(g))
  }

  /** `_move_text_position` once both translations are numbers. */
  function MoveBy(s: PageState, x: real, y: real): Result<PageState> {
    if y < 0.0 && Abs(x + s.tdX) < XThreshold then
      Ok(s.(current := AddGlyph(s.current, Return), tdX := 0.0, tdY := s.tdY + y, xDisplacement := 0.0))
    else if y > 0.0 && Abs(y + s.tdY) < YThreshold then
      Ok(s.(tdY := 0.0, tdX := 0.0, current := AddGlyph(s.current, if x < 0.0 then Precedes else Tab),
            xDisplacement := 0.0))
    else if Abs(y) >= YThreshold then
      Ok(EndTextObjectStep(s))
    else if x < 0.0 && s.current.content != "" then
      Ok(s.(current := AddGlyph(s.current, Precedes), xDisplacement := 0.0))
    else if x > 0.0 && s.current.content != "" then
      if s.font.None? then Err(NoCurrentFont)
      else if x - s.xDisplacement > XThreshold * s.font.value.size then
        Ok(s.(current := AddGlyph(s.current, Tab), xDisplacement := 0.0))
      else
        Ok(s.(tdX := s.tdX + x, xDisplacement := 0.0))
    else
      Ok(s.(xDisplacement := 0.0))
  }

  function MoveTextPositionStep(s: PageState, operands: seq<Operand>): Result<PageState> {
    if |operands| != 2 then Err(WrongOperandCount)
    else if !operands[0].Number? || !operands[1].Number? then Err(BadOperand)
    else MoveBy(s, operands[0].x, operands[1].x)
  }

  /** `Tf` closes the text object, then switches to the font its operands name. */
  function SetFontStep(s: PageState, operands: seq<Operand>, fonts: map<string, FontDictionary>): Result<PageState> {
    var e := EndTextObjectStep(s);
    match FromOperands(operands, fonts)
    case Err(err) => Err(err)
    case Ok(f) => Ok(e.(font := Some(f)))
  }

  /** `_set_origin`: the first shown text fixes the box's corner; later text keeps it. */
  function SetOriginStep(s: PageState, origin: (real, real)): PageState {
    if s.current.boundingBox.Some? then s
    else s.(current := s.current.(boundingBox := Some(BoundingBox(Ceil(origin.0), Ceil(origin.1), 0, 0))))
  }

  /** `max(width, x_displacement)`, through the ceiling validator when the displacement wins. */
  function Widened(width: int, xDisplacement: real): int {
    if xDisplacement > width as real then Ceil(xDisplacement) else width
  }

  /** A glyph-space amount (thousandths of a unit) scaled by the font size. */
  function TextSpace(amount: real, font: Font): real {
    amount / 1000.0 * font.size
  }

  /** Advances the displacement and widens the box to cover it. */
  function Advanced(s: PageState, displacement: real): Result<PageState> {
    var xd := s.xDisplacement + displacement;
    if s.current.boundingBox.None? then Err(NoBoundingBox)
    else
      var box := s.current.boundingBox.value;
      Ok(s.(xDisplacement := xd,
            current := s.current.(boundingBox := Some(box.(width := Widened(box.width, xd))))))
  }

  /** `_handle_text_string`: decode with the current font, extend the content, advance. */
  function HandleTextStringStep(s: PageState, data: seq<byte>): Result<PageState> {
    if s.font.None? then Err(NoCurrentFont)
    else
      match Decoded(s.font.value, data)
      case Err(e) => Err(e)
      case Ok(decoded) =>
        Advanced(s.(current := s.current.(content := s.current.content + decoded.0)),
                TextSpace(decoded.1 as real, s.font.value))
  }

  function ShowTextStringStep(s: PageState, operands: seq<Operand>, origin: (real, real)): Result<PageState> {
    var o := SetOriginStep(s, origin);
    if |operands| == 0 then Err(MissingOperand)
    else if o.font.None? then Err(NoCurrentFont)
    else if !operands[0].Bytes? then Err(BadOperand)
    else HandleTextStringStep(o, operands[0].data)
  }

  /** What `for operand in operands[0]` iterates over: an array's items, a string's bytes (as numbers), a name's characters. */
  function ShownItems(operand: Operand): Option<seq<Operand>> {
    match operand
    case Array(items) => Some(items)
    case Bytes(data) => Some(seq(|data|, i requires 0 <= i < |data| => Number(data[i] as real)))
    case Name(name) => Some(seq(|name|, i requires 0 <= i < |name| => Name([name[i]])))
    case Number(_) => None
  }

  /** One element of a `TJ` array: a string is shown, a number moves by thousandths of the font size. */
  function ShowItemStep(s: PageState, item: Operand): Result<PageState> {
    match item
    case Bytes(data) => HandleTextStringStep(s, data)
    case Number(n) =>
      if s.font.None? then Err(NoCurrentFont) else Advanced(s, TextSpace(n, s.font.value))
    case _ => Err(BadOperand)
  }

  function ShowItemSteps(): (PageState, Operand) -> Result<PageState> {
    (s, item) => ShowItemStep(s, item)
  }

  function ShowTextStringsStep(s: PageState, operands: seq<Operand>, origin: (real, real)): Result<PageState> {
    var o := SetOriginStep(s, origin);
    if |operands| == 0 then Err(MissingOperand)
    else
      match ShownItems(operands[0])
      case None => Err(BadOperand)
      case Some(items) => FoldResult(o, items, ShowItemSteps())
  }

  /** The operator dispatch of `extract_text`: any other operator leaves the page as it is. */
  function Step(s: PageState, ins: Instruction, fonts: map<string, FontDictionary>): Result<PageState> {
    match OperatorOf(ins.operator)
    case None => Ok(s)
    case Some(op) =>
      match op
      case EndTextObject => Ok(EndTextObjectStep(s))
      case SaveGraphicsState => Ok(SaveGraphicsStateStep(s))
      case RestoreGraphicsState => RestoreGraphicsStateStep(s)
      case MoveTextPosition => MoveTextPositionStep(s, ins.operands)
      case SetFont => SetFontStep(s, ins.operands, fonts)
      case ShowTextString => ShowTextStringStep(s, ins.operands, ins.origin)
      case ShowTextStrings => ShowTextStringsStep(s, ins.operands, ins.origin)
  }

  function Steps(fonts: map<string, FontDictionary>): (PageState, Instruction) -> Result<PageState> {
    (s, ins) => Step(s, ins, fonts)
  }

  /** The page state after a whole content stream. */
  function Run(s: PageState, stream: seq<Instruction>, fonts: map<string, FontDictionary>): Result<PageState> {
    FoldResult(s, stream, Steps(fonts))
  }

  function SerializeOne(t: TextObject): Result<string> {
    Serialize(t)
  }

  /** The concatenation of the serialised text objects. */
  function Concat(parts: seq<string>): string
    decreases |parts|
  {
    if parts == [] then "" else Concat(parts[..|parts| - 1]) + parts[|parts| - 1]
  }

  /** `"".join(serialize(t) for t in text_objects)`: the first object that cannot be serialised raises. */
  function SerializedText(objects: seq<TextObject>): Result<string> {
    match Collect(objects, SerializeOne)
    case Err(e) => Err(e)
    case Ok(parts) => Ok(Concat(parts))
  }

  /** What `extract_text` returns: every finished text object serialised, in order. */
  function ExtractedText(s: PageState, stream: seq<Instruction>, fonts: map<string, FontDictionary>): Result<string> {
    match Run(s, stream, fonts)
    case Err(e) => Err(e)
    case Ok(final) =>
      SerializedText(final.textObjects)
  }

  /** A handler that may raise: no error and the new state, or the error it raised. */
  ghost predicate Reports(err: Option<Error>, now: PageState, r: Result<PageState>) {
    match r
    case Ok(s) => err.None? && now == s
    case Err(e) => err == Some(e)
  }

  // ---------------------------------------------------------------------------
  // The page

  class Page {
    const fonts: map<string, FontDictionary>
    var textObjects: seq<TextObject>
    var current: TextObject
    var font: Option<Font>
    var fontStack: seq<Option<Font>>
    var xDisplacement: real
    var tdX: real
    var tdY: real

    function State(): PageState
      reads this
    {
      PageState(textObjects, current, font, fontStack, xDisplacement, tdX, tdY)
    }

    constructor (fonts: map<string, FontDictionary>)
      ensures State() == Initial && this.fonts == fonts
    {
      this.fonts := fonts;
      textObjects := [];
      current := EmptyTextObject;
      font := None;
      fontStack := [];
      xDisplacement := 0.0;
      tdX := 0.0;
      tdY := 0.0;
    }

    /** `_end_text_object`. */
    method EndTextObject()
      modifies this
      ensures State() == EndTextObjectStep(old(State()))
    {
      if current.content != "" {
        if EndsWith(current.content, GlyphValue(Return)) {
          current := current.(content := current.content[..|current.content| - 1]);
        }
        current := current.(content := Strip(current.content));
        current := current.(font := font);
        textObjects := textObjects + [current];
      }
      current := EmptyTextObject;
      xDisplacement := 0.0;
    }

    /** `_save_graphics_state` (`q`). */
    method SaveGraphicsState()
      modifies this
      ensures State() == SaveGraphicsStateStep(old(State()))
    {
      fontStack := fontStack + [font];
    }

    /** `_restore_graphics_state` (`Q`). */
    method RestoreGraphicsState() returns (err: Option<Error>)
      modifies this
      ensures Reports(err, State(), RestoreGraphicsStateStep(old(State())))
    {
      EndTextObject();
      if fontStack == [] {
        return Some(EmptyFontStack);
      }
      font := fontStack[|fontStack| - 1];
      fontStack := fontStack[..|fontStack| - 1];
      err := None;
    }

    /** `_move_text_position` (`Td`). */
    method MoveTextPosition(operands: seq<Operand>) returns (err: Option<Error>)
      modifies this
      ensures Reports(err, State(), MoveTextPositionStep(old(State()), operands))
    {
      if |operands| != 2 {
        return Some(WrongOperandCount);
      }
      if !operands[0].Number? || !operands[1].Number? {
        return Some(BadOperand);
      }
      var x, y := operands[0].x, operands[1].x;
      err := None;
      if y < 0.0 && Abs(x + tdX) < XThreshold {
        current := AddGlyph(current, Return);
        tdX := 0.0;
        tdY := tdY + y;
      } else if y > 0.0 && Abs(y + tdY) < YThreshold {
        tdY := 0.0;
        tdX := 0.0;
        if x < 0.0 {
          current := AddGlyph(current, Precedes);
        } else {
          current := AddGlyph(current, Tab);
        }
      } else if Abs(y) >= YThreshold {
        EndTextObject();
      } else if x < 0.0 && current.content != "" {
        current := AddGlyph(current, Precedes);
      } else if x > 0.0 && current.content != "" {
        if font.None? {
          return Some(NoCurrentFont);
        }
        if x - xDisplacement > XThreshold * font.value.size {
          current := AddGlyph(current, Tab);
        } else {
          tdX := tdX + x;
        }
      }
      xDisplacement := 0.0;
    }

    /** `_set_font` (`Tf`). */
    method SetFont(operands: seq<Operand>) returns (err: Option<Error>)
      modifies this
      ensures Reports(err, State(), SetFontStep(old(State()), operands, fonts))
    {
      EndTextObject();
      var f := FromOperands(operands, fonts);
      if f.Err? {
        return Some(f.error);
      }
      font := Some(f.value);
      err := None;
    }

    /** `_set_origin`, given the translation row of the matrix product. */
    method SetOrigin(origin: (real, real))
      modifies this
      ensures State() == SetOriginStep(old(State()), origin)
    {
      if current.boundingBox.None? {
        current := current.(boundingBox := Some(BoundingBox(Ceil(origin.0), Ceil(origin.1), 0, 0)));
      }
    }

    /** The displacement update shared by shown strings and `TJ` numbers. */
    method Advance(displacement: real) returns (err: Option<Error>)
      modifies this
      ensures Reports(err, State(), Advanced(old(State()), displacement))
    {
      xDisplacement := xDisplacement + displacement;
      if current.boundingBox.None? {
        return Some(NoBoundingBox);
      }
      var box := current.boundingBox.value;
      current := current.(boundingBox := Some(box.(width := Widened(box.width, xDisplacement))));
      err := None;
    }

    /** `_handle_text_string`. */
    method HandleTextString(data: seq<byte>) returns (err: Option<Error>)
      modifies this
      ensures Reports(err, State(), HandleTextStringStep(old(State()), data))
    {
      if font.None? {
        return Some(NoCurrentFont);
      }
      var decoded := Decode(font.value, data);
      if decoded.Err? {
        return Some(decoded.error);
      }
      current := current.(content := current.content + decoded.value.0);
      err := Advance(TextSpace(decoded.value.1 as real, font.value));
    }

    /** `_show_text_string` (`Tj`). */
    method ShowTextString(operands: seq<Operand>, origin: (real, real)) returns (err: Option<Error>)
      modifies this
      ensures Reports(err, State(), ShowTextStringStep(old(State()), operands, origin))
    {
      SetOrigin(origin);
      if |operands| == 0 {
        return Some(MissingOperand);
      }
      if font.None? {
        return Some(NoCurrentFont);
      }
      if !operands[0].Bytes? {
        return Some(BadOperand);
      }
      err := HandleTextString(operands[0].data);
    }

    /** One element of a `TJ` array. */
    method ShowItem(item: Operand) returns (err: Option<Error>)
      modifies this
      ensures Reports(err, State(), ShowItemStep(old(State()), item))
    {
      if item.Bytes? {
        err := HandleTextString(item.data);
      } else if item.Number? {
        if font.None? {
          err := Some(NoCurrentFont);
        } else {
          err := Advance(TextSpace(item.x, font.value));
        }
      } else {
        err := Some(BadOperand);
      }
    }

    /** `_show_text_strings` (`TJ`). */
    method ShowTextStrings(operands: seq<Operand>, origin: (real, real)) returns (err: Option<Error>)
      modifies this
      ensures Reports(err, State(), ShowTextStringsStep(old(State()), operands, origin))
    {
      SetOrigin(origin);
      ghost var start := State();
      if |operands| == 0 {
        return Some(MissingOperand);
      }
      var shown := ShownItems(operands[0]);
      if shown.None? {
        return Some(BadOperand);
      }
      var items := shown.value;
      for i := 0 to |items|
        invariant FoldResult(start, items[..i], ShowItemSteps()) == Ok(State())
      {
        assert items[..i + 1] == items[..i] + [items[i]];
        FoldResultSnoc(start, items[..i], items[i], ShowItemSteps());
        err := ShowItem(items[i]);
        if err.Some? {
          FoldResultErrSticky(start, items[..i + 1], items[i + 1..], ShowItemSteps());
          assert items[..i + 1] + items[i + 1..] == items;
          return;
        }
      }
      assert items[..|items|] == items;
      err := None;
    }

    /** The operator dispatch of `extract_text`'s visitor. */
    method VisitOperator(ins: Instruction) returns (err: Option<Error>)
      modifies this
      ensures Reports(err, State(), Step(old(State()), ins, fonts))
    {
      err := None;
      match OperatorOf(ins.operator) {
        case None =>
        case Some(op) =>
          match op {
            case EndTextObject => EndTextObject();
            case SaveGraphicsState => SaveGraphicsState();
            case RestoreGraphicsState => err := RestoreGraphicsState();
            case MoveTextPosition => err := MoveTextPosition(ins.operands);
            case SetFont => err := SetFont(ins.operands);
            case ShowTextString => err := ShowTextString(ins.operands, ins.origin);
            case ShowTextStrings => err := ShowTextStrings(ins.operands, ins.origin);
          }
      }
    }

    /** The visitor loop of `extract_text`: every operation of the stream in order, stopping at the first that raises. */
    method VisitStream(stream: seq<Instruction>) returns (err: Option<Error>)
      modifies this
      ensures Reports(err, State(), Run(old(State()), stream, fonts))
    {
      ghost var start := State();
      for i := 0 to |stream|
        invariant Run(start, stream[..i], fonts) == Ok(State())
      {
        assert stream[..i + 1] == stream[..i] + [stream[i]];
        FoldResultSnoc(start, stream[..i], stream[i], Steps(fonts));
        err := VisitOperator(stream[i]);
        if err.Some? {
          FoldResultErrSticky(start, stream[..i + 1], stream[i + 1..], Steps(fonts));
          assert stream[..i + 1] + stream[i + 1..] == stream;
          return;
        }
      }
      assert stream[..|stream|] == stream;
      err := None;
    }

    /** `extract_text`: run the content stream, then serialise the finished text objects in order. */
    method ExtractText(stream: seq<Instruction>) returns (r: Result<string>)
      modifies this
      ensures r == ExtractedText(old(State()), stream, fonts)
    {
      var err := VisitStream(stream);
      if err.Some? {
        return Err(err.value);
      }
      r := SerializedText(textObjects);
    }
  }

  // ---------------------------------------------------------------------------
  // Properties of the extractor

  /** Every operator but `q` and `Q` leaves the font stack alone. */
  predicate KeepsFontStack(ins: Instruction) {
    OperatorOf(ins.operator) != Some(Operator.SaveGraphicsState)
    && OperatorOf(ins.operator) != Some(Operator.RestoreGraphicsState)
  }

  /** The page invariant: an open box is as wide as the text shown on its line; before any box, nothing was shown. */
  predicate BoxCoversLine(s: PageState) {
    match s.current.boundingBox
    case None => s.xDisplacement == 0.0
    case Some(b) => 0 <= b.width && s.xDisplacement <= b.width as real
  }

  /** `b` is `a`, or `a` followed by one of the glyphs a text move injects. */
  predicate GainsAtMostOneGlyph(a: string, b: string) {
    b == a || (|b| == |a| + 1 && b[..|a|] == a && b[|a|] in {'↩', '⇤', '⇥'})
  }

  /** What showing text may change: the open object's content grows, its box widens, nothing else moves. */
  ghost predicate ShowsOnly(s: PageState, m: PageState) {
    && m.textObjects == s.textObjects && m.font == s.font && m.fontStack == s.fontStack
    && m.tdX == s.tdX && m.tdY == s.tdY
    && s.current.content <= m.current.content
    && (BoxCoversLine(s) ==> BoxCoversLine(m))
  }

  /** An operator the extractor does not know changes nothing. */
  lemma UnknownOperatorIgnored(s: PageState, ins: Instruction, fonts: map<string, FontDictionary>)
    requires forall op :: OperatorValue(op) != ins.operator
    ensures Step(s, ins, fonts) == Ok(s)
  {
  }

  /** Closing a text object keeps a trimmed copy of a non-empty one, resets the line, and is idempotent. */
  lemma EndTextObjectRule(s: PageState)
    ensures var m := EndTextObjectStep(s);
            && EndTextObjectStep(m) == m
            && m.current == EmptyTextObject && m.xDisplacement == 0.0
            && m.font == s.font && m.fontStack == s.fontStack && m.tdX == s.tdX && m.tdY == s.tdY
            && (s.current.content == "" ==> m.textObjects == s.textObjects)
            && (s.current.content != "" ==>
                  && |m.textObjects| == |s.textObjects| + 1
                  && m.textObjects[..|s.textObjects|] == s.textObjects
                  && m.textObjects[|s.textObjects|].font == s.font
                  && m.textObjects[|s.textObjects|].boundingBox == s.current.boundingBox
                  && Trimmed(DropReturn(s.current.content), m.textObjects[|s.textObjects|].content))
  {
    StripTrimmed(DropReturn(s.current.content));
    var m := EndTextObjectStep(s);
    if s.current.content != "" {
      assert m.textObjects[..|s.textObjects|] == s.textObjects;
    }
  }

  /** Only the return glyph at the very end is dropped, and only one of it. */
  lemma DropReturnRule(content: string)
    ensures DropReturn(content) == content || DropReturn(content) + GlyphValue(Return) == content
    ensures EndsWith(content, GlyphValue(Return)) <==> DropReturn(content) != content
  {
    if EndsWith(content, GlyphValue(Return)) {
      assert content == content[..|content| - 1] + [content[|content| - 1]];
    }
  }

  /** `Td` can fail only for want of a font, when a small rightward move follows some text. */
  lemma MoveTextPositionFails(s: PageState, x: real, y: real)
    ensures s.font.Some? || s.current.content == "" ==> MoveBy(s, x, y).Ok?
    ensures MoveBy(s, x, y).Err? ==> MoveBy(s, x, y) == Err(NoCurrentFont) && x > 0.0 && Abs(y) < YThreshold
  {
  }

  /** Appending a delimiter glyph grows the content by that one glyph and touches nothing else. */
  lemma AddGlyphGains(t: TextObject, g: DelimiterGlyph)
    requires g == Return || g == Precedes || g == Tab
    ensures GainsAtMostOneGlyph(t.content, AddGlyph(t, g).content)
    ensures AddGlyph(t, g).boundingBox == t.boundingBox && AddGlyph(t, g).font == t.font
  {
    assert AddGlyph(t, g).content[..|t.content|] == t.content;
  }

  /** `Td` resets the displacement and either closes the object or appends at most one delimiter glyph. */
  lemma MoveTextPositionOutcome(s: PageState, x: real, y: real)
    ensures MoveBy(s, x, y).Ok? ==>
              var m := MoveBy(s, x, y).value;
              && m.xDisplacement == 0.0 && m.font == s.font && m.fontStack == s.fontStack
              && (m == EndTextObjectStep(s)
                  || (&& m.textObjects == s.textObjects
                      && m.current.boundingBox == s.current.boundingBox && m.current.font == s.current.font
                      && GainsAtMostOneGlyph(s.current.content, m.current.content)))
  {
    if y < 0.0 && Abs(x + s.tdX) < XThreshold {
      AddGlyphGains(s.current, Return);
    } else if y > 0.0 && Abs(y + s.tdY) < YThreshold {
      AddGlyphGains(s.current, if x < 0.0 then Precedes else Tab);
    } else if Abs(y) >= YThreshold {
    } else if x < 0.0 && s.current.content != "" {
      AddGlyphGains(s.current, Precedes);
    } else if x > 0.0 && s.current.content != "" {
      AddGlyphGains(s.current, Tab);
    }
  }

  /** A short downward move is a line break inside the object; a move of a whole line or more closes it. */
  lemma MoveTextPositionLines(s: PageState, x: real, y: real)
    ensures y < 0.0 && Abs(x + s.tdX) < XThreshold ==>
              && MoveBy(s, x, y).Ok?
              && MoveBy(s, x, y).value.current.content == s.current.content + "↩"
              && MoveBy(s, x, y).value.tdY == s.tdY + y
    ensures (&& Abs(y) >= YThreshold && !(y < 0.0 && Abs(x + s.tdX) < XThreshold)
             && !(y > 0.0 && Abs(y + s.tdY) < YThreshold)) ==> MoveBy(s, x, y) == Ok(EndTextObjectStep(s))
  {
  }

  /** Advancing moves the displacement by exactly the amount and widens the box just enough to cover it. */
  lemma AdvancedRule(s: PageState, d: real)
    ensures Advanced(s, d).Ok? <==> s.current.boundingBox.Some?
    ensures Advanced(s, d).Ok? ==>
              var m := Advanced(s, d).value;
              var w, w' := s.current.boundingBox.value.width, m.current.boundingBox.value.width;
              && m.xDisplacement == s.xDisplacement + d
              && w <= w' && m.xDisplacement <= w' as real
              && (w' == w || w' as real < m.xDisplacement + 1.0)
              && m.current.content == s.current.content
              && m.current.boundingBox.value.xMin == s.current.boundingBox.value.xMin
              && m.current.boundingBox.value.yMin == s.current.boundingBox.value.yMin
              && ShowsOnly(s, m)
  {
  }

  /** One element of a `TJ` array only shows text. */
  lemma ShowItemRule(s: PageState, item: Operand)
    ensures ShowItemStep(s, item).Ok? ==> ShowsOnly(s, ShowItemStep(s, item).value)
  {
    match item
    case Bytes(data) =>
      if s.font.Some? && Decoded(s.font.value, data).Ok? {
        var t := s.(current := s.current.(content := s.current.content + Decoded(s.font.value, data).value.0));
        AdvancedRule(t, TextSpace(Decoded(s.font.value, data).value.1 as real, s.font.value));
      }
    case Number(n) =>
      if s.font.Some? {
        AdvancedRule(s, TextSpace(n, s.font.value));
      }
    case _ =>
  }

  /** A whole `TJ` array only shows text. */
  lemma {:induction false} ShowItemsRule(s: PageState, items: seq<Operand>)
    ensures FoldResult(s, items, ShowItemSteps()).Ok? ==> ShowsOnly(s, FoldResult(s, items, ShowItemSteps()).value)
    decreases |items|
  {
    if items != [] {
      var n := |items| - 1;
      ShowItemsRule(s, items[..n]);
      var r := FoldResult(s, items[..n], ShowItemSteps());
      if r.Ok? {
        ShowItemRule(r.value, items[n]);
      }
    }
  }

  /** `Tj` fixes the box's corner at the first text of an object, appends the decoded text, and widens the box. */
  lemma ShowTextStringRule(s: PageState, operands: seq<Operand>, origin: (real, real))
    ensures ShowTextStringStep(s, operands, origin).Ok? ==>
              var m := ShowTextStringStep(s, operands, origin).value;
              var b := m.current.boundingBox.value;
              && |operands| > 0 && operands[0].Bytes? && s.font.Some?
              && Decoded(s.font.value, operands[0].data).Ok?
              && m.current.content == s.current.content + Decoded(s.font.value, operands[0].data).value.0
              && (s.current.boundingBox.Some? ==>
                    b.xMin == s.current.boundingBox.value.xMin && b.yMin == s.current.boundingBox.value.yMin
                    && b.width >= s.current.boundingBox.value.width)
              && (s.current.boundingBox.None? ==> b.xMin == Ceil(origin.0) && b.yMin == Ceil(origin.1) && b.width >= 0)
              && (BoxCoversLine(s) ==> BoxCoversLine(m))
  {
    var o := SetOriginStep(s, origin);
    if |operands| > 0 && operands[0].Bytes? && s.font.Some? && Decoded(s.font.value, operands[0].data).Ok? {
      var decoded := Decoded(s.font.value, operands[0].data).value;
      var t := o.(current := o.current.(content := o.current.content + decoded.0));
      AdvancedRule(t, TextSpace(decoded.1 as real, s.font.value));
    }
  }

  /** `Tf` closes the open object and switches to the named font; it fails exactly when the font cannot be built. */
  lemma SetFontRule(s: PageState, operands: seq<Operand>, fonts: map<string, FontDictionary>)
    ensures SetFontStep(s, operands, fonts).Ok? <==> FromOperands(operands, fonts).Ok?
    ensures SetFontStep(s, operands, fonts).Ok? ==>
              var m := SetFontStep(s, operands, fonts).value;
              && m.textObjects == EndTextObjectStep(s).textObjects && m.current == EmptyTextObject
              && m.font.Some? && m.font.value.size == operands[1].x
              && m.font.value.dictionary == fonts[operands[0].name]
              && m.fontStack == s.fontStack
  {
    FromOperandsRule(operands, fonts);
  }

  /** `Q` pops exactly what `q` pushed, and fails on an empty stack. */
  lemma SaveRestoreRule(s: PageState)
    ensures RestoreGraphicsStateStep(s).Err? <==> s.fontStack == []
    ensures RestoreGraphicsStateStep(SaveGraphicsStateStep(s)) == Ok(EndTextObjectStep(s))
  {
    var saved := SaveGraphicsStateStep(s);
    assert EndTextObjectStep(saved).fontStack == s.fontStack + [s.font];
    assert (s.fontStack + [s.font])[..|s.fontStack|] == s.fontStack;
  }

  /** `TJ` only shows text, once its origin is set. */
  lemma ShowTextStringsRule(s: PageState, operands: seq<Operand>, origin: (real, real))
    ensures ShowTextStringsStep(s, operands, origin).Ok? ==>
              var m := ShowTextStringsStep(s, operands, origin).value;
              && m.textObjects == s.textObjects && m.font == s.font && m.fontStack == s.fontStack
              && s.current.content <= m.current.content
              && (BoxCoversLine(s) ==> BoxCoversLine(m))
  {
    var o := SetOriginStep(s, origin);
    if |operands| > 0 && ShownItems(operands[0]).Some? {
      ShowItemsRule(o, ShownItems(operands[0]).value);
    }
  }

  /** `Td` keeps the finished objects, the box invariant and the font stack. */
  lemma MoveTextPositionKeeps(s: PageState, operands: seq<Operand>)
    ensures MoveTextPositionStep(s, operands).Ok? ==>
              var m := MoveTextPositionStep(s, operands).value;
              && s.textObjects <= m.textObjects && m.fontStack == s.fontStack
              && (BoxCoversLine(s) ==> BoxCoversLine(m))
  {
    if |operands| == 2 && operands[0].Number? && operands[1].Number? {
      MoveTextPositionOutcome(s, operands[0].x, operands[1].x);
      EndTextObjectRule(s);
    }
  }

  /** What one operation keeps: finished objects stay, the box covers the line, and the font stack moves only on `q`/`Q`. */
  lemma StepRule(s: PageState, ins: Instruction, fonts: map<string, FontDictionary>)
    ensures Step(s, ins, fonts).Ok? ==> s.textObjects <= Step(s, ins, fonts).value.textObjects
    ensures Step(s, ins, fonts).Ok? && BoxCoversLine(s) ==> BoxCoversLine(Step(s, ins, fonts).value)
    ensures Step(s, ins, fonts).Ok? && KeepsFontStack(ins) ==> Step(s, ins, fonts).value.fontStack == s.fontStack
  {
    var op := OperatorOf(ins.operator);
    if op == Some(Operator.EndTextObject) || op == Some(Operator.RestoreGraphicsState) || op == Some(Operator.SetFont) {
      EndTextObjectRule(s);
    } else if op == Some(Operator.MoveTextPosition) {
      MoveTextPositionKeeps(s, ins.operands);
    } else if op == Some(Operator.ShowTextString) {
      ShowTextStringRule(s, ins.operands, ins.origin);
    } else if op == Some(Operator.ShowTextStrings) {
      ShowTextStringsRule(s, ins.operands, ins.origin);
    }
  }

  /** Over a whole content stream: finished objects are never revised, and the box invariant holds throughout. */
  lemma {:induction false} RunRule(s: PageState, stream: seq<Instruction>, fonts: map<string, FontDictionary>)
    ensures Run(s, stream, fonts).Ok? ==> s.textObjects <= Run(s, stream, fonts).value.textObjects
    ensures Run(s, stream, fonts).Ok? && BoxCoversLine(s) ==> BoxCoversLine(Run(s, stream, fonts).value)
    ensures Run(s, stream, fonts).Ok? && (forall i :: 0 <= i < |stream| ==> KeepsFontStack(stream[i])) ==>
              Run(s, stream, fonts).value.fontStack == s.fontStack
    decreases |stream|
  {
    if stream != [] {
      var n := |stream| - 1;
      assert forall i :: 0 <= i < n ==> stream[..n][i] == stream[i];
      RunRule(s, stream[..n], fonts);
      var r := Run(s, stream[..n], fonts);
      if r.Ok? {
        StepRule(r.value, stream[n], fonts);
      }
    }
  }

  /** Between a `q` and its `Q`, whatever fonts were set, the `Q` brings back the font and stack of the `q`. */
  lemma SaveRestoreAcross(s: PageState, stream: seq<Instruction>, fonts: map<string, FontDictionary>)
    requires forall i :: 0 <= i < |stream| ==> KeepsFontStack(stream[i])
    ensures var inner := Run(SaveGraphicsStateStep(s), stream, fonts);
            inner.Ok? ==>
              && RestoreGraphicsStateStep(inner.value).Ok?
              && RestoreGraphicsStateStep(inner.value).value.font == s.font
              && RestoreGraphicsStateStep(inner.value).value.fontStack == s.fontStack
  {
    var saved := SaveGraphicsStateStep(s);
    RunRule(saved, stream, fonts);
    assert (s.fontStack + [s.font])[..|s.fontStack|] == s.fontStack;
  }

  /** The extracted text exists exactly when every finished object has a font and a box. */
  lemma {:induction false} SerializedTextRule(objects: seq<TextObject>)
    ensures SerializedText(objects).Ok? <==>
              forall i :: 0 <= i < |objects| ==> objects[i].font.Some? && objects[i].boundingBox.Some?
    ensures SerializedText(objects).Err? ==> SerializedText(objects) == Err(MissingFontOrBoundingBox)
    decreases |objects|
  {
    if objects != [] {
      var n := |objects| - 1;
      assert forall i :: 0 <= i < n ==> objects[..n][i] == objects[i];
      SerializedTextRule(objects[..n]);
    }
  }

  /**
    A text object that holds only a line break is kept: the return glyph makes the content non-empty when
    `_end_text_object` tests it, and stripping leaves an object with no box, which cannot be serialised.
  */
  lemma LoneLineBreakFails(y: real, fonts: map<string, FontDictionary>)
    requires y < 0.0
    ensures var stream := [Instruction(OperatorValue(Operator.MoveTextPosition), [Number(0.0), Number(y)], (0.0, 0.0)),
                           Instruction(OperatorValue(Operator.EndTextObject), [], (0.0, 0.0))];
            && Run(Initial, stream, fonts) == Ok(Initial.(textObjects := [TextObject("", None, None)], tdY := y))
            && ExtractedText(Initial, stream, fonts) == Err(MissingFontOrBoundingBox)
  {
    var move := Instruction(OperatorValue(Operator.MoveTextPosition), [Number(0.0), Number(y)], (0.0, 0.0));
    var end := Instruction(OperatorValue(Operator.EndTextObject), [], (0.0, 0.0));
    var moved := Initial.(current := AddGlyph(EmptyTextObject, Return), tdY := y);
    var ended := Initial.(textObjects := [TextObject("", None, None)], tdY := y);
    LineBreakStep(y, fonts);
    LineBreakEnd(y, fonts);
    FoldResultSnoc(Initial, [], move, Steps(fonts));
    assert [] + [move] == [move];
    FoldResultSnoc(Initial, [move], end, Steps(fonts));
    assert [move] + [end] == [move, end];
    SerializedTextRule(ended.textObjects);
  }

  lemma LineBreakStep(y: real, fonts: map<string, FontDictionary>)
    requires y < 0.0
    ensures Step(Initial, Instruction(OperatorValue(Operator.MoveTextPosition), [Number(0.0), Number(y)], (0.0, 0.0)), fonts)
            == Ok(Initial.(current := AddGlyph(EmptyTextObject, Return), tdY := y))
  {
    OperatorOfValue(Operator.MoveTextPosition);
  }

  lemma LineBreakEnd(y: real, fonts: map<string, FontDictionary>)
    ensures Step(Initial.(current := AddGlyph(EmptyTextObject, Return), tdY := y),
                 Instruction(OperatorValue(Operator.EndTextObject), [], (0.0, 0.0)), fonts)
            == Ok(Initial.(textObjects := [TextObject("", None, None)], tdY := y))
  {
    OperatorOfValue(Operator.EndTextObject);
    var t := AddGlyph(EmptyTextObject, Return);
    assert t.content == "↩";
    assert DropReturn(t.content) == [];
    assert TrimStart([]) == [];
    assert Strip([]) == [];
    assert Finished(t, None) == TextObject("", None, None);
    var moved := Initial.(current := t, tdY := y);
    var end := Instruction(OperatorValue(Operator.EndTextObject), [], (0.0, 0.0));
    assert Step(moved, end, fonts) == Ok(EndTextObjectStep(moved));
    assert EndTextObjectStep(moved).textObjects == [TextObject("", None, None)];
  }


}
