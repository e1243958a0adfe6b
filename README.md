# MLS roster profiles, modelled in Dafny

The league publishes its roster profiles as one PDF document with one team per page. The
library reads that PDF in five stages, and this project models each one and proves
properties of the model:

1. **Text extraction** (`pdf_reader.dfy`, `pdf_models.dfy`, `pdf_enums.dfy`). A state
   machine walks a page's content stream and reacts to seven operators: `ET`, `Td`, `Tj`
   and `TJ` (section 9.4 of ISO 32000-1), `Tf` (section 9.3), and `q`/`Q` (section
   8.4.4). It keeps a font stack and an in-progress text object.
   - A text move injects delimiter glyphs: `↩` for a new line, `⇥` for a jump to the
     right, `⇤` for a jump to the left.
   - Showing text decodes bytes through the font's glyph map and its FirstChar / LastChar /
     Widths table (section 9.6.2). It widens the text object's bounding box.
   - Every finished object is serialised as `content《x_min|x_center|x_max|weight》` plus a
     newline.
   - `Page` is a class whose methods update its fields in place. Each method is proved
     against a function of the page state (`PageState`), and the lemmas state what those
     functions guarantee.
2. **Enum lookup** (`roster_enums.dfy`). The four vocabularies of the league, looked up
   case- and en-dash-insensitively. The first member in declaration order wins, and within
   each vocabulary no two members collide after normalisation.
3. **Parse-tree folding** (`parse_tree.dfy`). This stage turns the grammar's parse tree into
   the nested dictionaries the records are validated from:
   - the field key a visitor answers to;
   - the flattening of visited children;
   - the string and integer terminal visitors;
   - the per-record fold that merges one-key dictionaries. List fields accumulate,
     repeated string keys are joined with a space, and malformed children are skipped.
4. **Roster-profile assembly** (`roster_models.dfy`, `roster_properties.dfy`). This stage
   builds a `Team` and its `Player`s from the parsed tables:
   - one player per large-table row;
   - each player enriched from the "international", "designated" and "unavailable" small
     tables, by case-insensitive name-prefix matching and the marks `+` and `^`;
   - the loan / permanent-transfer rule;
   - the international-slot count read from a table title.

   `Player` and `Team` are classes. The enrichers update a player in place and are proved
   against fold functions over the small tables.
5. **The release** (`release.dfy`). Only pages whose text carries `SENIOR ROSTER` produce a
   team, and the release date comes from the last such page. Each team name is then resolved
   against a catalogue of team names: a team takes a catalogue entry's name and id only when
   exactly one entry scores at least 86.

`wrappers.dfy` holds `Option`, `Result`, the error kinds standing for the exceptions the code
raises, and a generic fold that stops at the first error. `text.dfy` models the Python string
operations the code relies on (`lower`, `strip`, `startswith`, `in`, `int()`, `re.search(r"\d+")`,
`str.join`).

## Model

| member | source | states |
|---|---|---|
| RosterEnums.Missing | src/mls_roster_profiles/enum.py:6-11 | `_missing_` returns a member whose value, lowercased with `–` replaced by `-`, equals the same normalisation of the input; it returns None exactly when no member matches |
| RosterEnums.MissingReturnsFirstMatch | src/mls_roster_profiles/enum.py:8-10 | when several members match, the first in declaration order is returned |
| RosterEnums.ConstructIsMissing | src/mls_roster_profiles/enum.py:4-11 | in an enum whose normalised values are distinct, constructing a member (exact value first, then `_missing_`) gives the same answer as `_missing_` alone |
| RosterEnums.LookupUnambiguous | src/mls_roster_profiles/enum.py:8-10 | in such an enum, no other member matches an input that one member matches |
| RosterEnums.RosterSlotsDistinct | src/mls_roster_profiles/enum.py:17-20 | the four roster-slot values are pairwise distinct after normalisation, and the table lists every slot |
| RosterEnums.RosterDesignationsDistinct | src/mls_roster_profiles/enum.py:26-32 | the seven roster-designation values are pairwise distinct after normalisation |
| RosterEnums.CurrentStatusesDistinct | src/mls_roster_profiles/enum.py:38-44 | the seven current-status values are pairwise distinct after normalisation |
| RosterEnums.RosterConstructionModelsDistinct | src/mls_roster_profiles/enum.py:50-51 | the two roster-construction-model values are distinct after normalisation |
| RosterEnums.OnLoanLookupExample | src/mls_roster_profiles/enum.py:7-10 | "unavailable – on loan" (lower case, en dash) resolves to ON_LOAN |
| RosterProperties.ValidateEnumRule | src/mls_roster_profiles/models.py:85-92 | the shared validator rule. Empty or missing input gives None. Input matching a member gives exactly that member. Anything else is kept verbatim as a string. Each case holds in both directions |
| RosterProperties.ValidateRosterDesignationRule | src/mls_roster_profiles/models.py:85-92 | the roster-designation validator follows that rule in both directions |
| RosterProperties.ValidateCurrentStatusRule | src/mls_roster_profiles/models.py:96-103 | the current-status validator follows that rule in both directions |
| RosterProperties.ValidateRosterConstructionModelRule | src/mls_roster_profiles/models.py:150-157 | the roster-construction-model validator follows that rule in both directions |
| Text.FirstDigitRun | src/mls_roster_profiles/models.py:219-220 | `re.search(r"\d+")` finds nothing exactly when the title holds no digit |
| Text.FirstDigitRunAt | src/mls_roster_profiles/models.py:219-221 | the number read is the value of the digit run starting at the first digit |
| RosterModels.InternationalSlots | src/mls_roster_profiles/models.py:208-221 | the slot count is None exactly when no "international" table title holds a digit |
| RosterProperties.InternationalSlotsFirst | src/mls_roster_profiles/models.py:217-221 | the count is the first digit run of the first "international" table whose title has one |
| RosterModels.FirstMatchFrom | src/mls_roster_profiles/models.py:240-245 | the row found is the first whose lowercased name starts with the player's lowercased name; with no such row, none matches |
| RosterModels.Player.constructor | src/mls_roster_profiles/models.py:11-80 | a player object holds exactly the given record |
| RosterModels.Team.constructor | src/mls_roster_profiles/models.py:106-146 | a team object starts with no id and exactly the given name, model, players, slots and GAM |
| RosterModels.EnrichFromInternationalTable | src/mls_roster_profiles/models.py:236-245 | one "international" table updates the player as `InternationalTableStep` says, or reports its error |
| RosterModels.EnrichFromInternationalSlots | src/mls_roster_profiles/models.py:223-246 | the loop over the small tables leaves the player as the fold of `InternationalTableStep` says, stopping at the first error |
| RosterProperties.InternationalTableStepSlot | src/mls_roster_profiles/models.py:236-245 | one table changes only the two international fields. `international_slot` becomes true exactly when the table is "international" and some row matches the name. An error arises only from a matched row without a name |
| RosterProperties.CanadianExemptionRule | src/mls_roster_profiles/models.py:237-244 | the exemption becomes true if the matched row holds `+`. It becomes false if some row holds `+` but the matched row does not (or no row matches). It is unchanged if no row holds `+` |
| RosterProperties.InternationalSlotRule | src/mls_roster_profiles/models.py:235-246 | after all tables, `international_slot` is set exactly when it was set before or some "international" table lists the player; nothing but the two international fields changes |
| RosterModels.EnrichFromDesignatedTable | src/mls_roster_profiles/models.py:263-265 | the row loop of a "designated" table leaves the player as the fold of `DesignatedRowStep` says |
| RosterModels.EnrichFromDesignatedPlayers | src/mls_roster_profiles/models.py:248-266 | the whole enricher leaves the player as `DesignatedEnriched` says, or reports the error |
| RosterProperties.DesignatedRowsRule | src/mls_roster_profiles/models.py:263-265 | over one table's rows, `convertible_with_tam` becomes False exactly when a matching row holds `^`, and nothing else changes |
| RosterProperties.DesignatedTablesRule | src/mls_roster_profiles/models.py:261-265 | over all tables, the same holds for the "designated" tables taken together |
| RosterProperties.ConvertibleWithTamRule | src/mls_roster_profiles/models.py:259-266 | a Designated Player ends with `convertible_with_tam` true unless a matching "designated" row holds `^`; any other player is unchanged |
| RosterModels.EnrichFromUnavailableTable | src/mls_roster_profiles/models.py:282-284 | the row loop leaves the player as the fold of `UnavailableRowStep` says |
| RosterModels.EnrichFromUnavailablePlayers | src/mls_roster_profiles/models.py:268-285 | the whole enricher leaves the player as `UnavailableEnriched` says |
| RosterProperties.UnavailableRowsRule | src/mls_roster_profiles/models.py:282-284 | over one table's rows, `unavailable` becomes its old value or "some row matches", and nothing else changes |
| RosterProperties.UnavailableRule | src/mls_roster_profiles/models.py:280-285 | over all tables, `unavailable` is set by any match in an "unavailable" table and never reset |
| RosterModels.EnrichPlayer | src/mls_roster_profiles/models.py:287-306 | the three enrichers and the loan rule leave the player as `Enriched` says, or report the first error |
| RosterProperties.CanadianExemptionAcross | src/mls_roster_profiles/models.py:235-246 | after all small tables, the last "international" table with a `+` row decides the Canadian exemption. It is True exactly when the player's first matching row there carries `+`, and False otherwise. With no such table the exemption is unchanged |
| RosterProperties.EnrichedRule | src/mls_roster_profiles/models.py:287-306 | after enrichment, the identity and contract fields are unchanged and each enriched field has its rule: international slot, Canadian exemption (decided by the last "international" table with a `+` row), TAM convertibility and unavailability. The permanent-transfer option survives only for a Loan Player |
| RosterProperties.PlayerFromRule | src/mls_roster_profiles/models.py:320-330 | a title that names no roster slot fails. Otherwise the new player has that slot, stripped name and contract fields, and validated designation and status. Its permanent-transfer option is "option years starts with PT" for a Loan Player and None otherwise |
| RosterProperties.RosterSlotFromTitle | src/mls_roster_profiles/models.py:321-323 | the roster slot taken from a table title is the one member whose normalised value equals the title's |
| RosterModels.BuildPlayer | src/mls_roster_profiles/models.py:320-330 | constructing and enriching one player gives a fresh object holding `PlayerFrom`'s record, or its error |
| RosterModels.GetTablePlayers | src/mls_roster_profiles/models.py:319-331 | the rows of one large table append one player each, in row order, or the run stops at the first row that fails |
| RosterModels.RowFails | src/mls_roster_profiles/models.py:319-331 | a row that fails after all earlier rows succeeded is the first failing entry |
| RosterModels.GetPlayers | src/mls_roster_profiles/models.py:308-333 | `_get_players` returns fresh players whose records are `PlayersFrom` of all table rows, or the first error |
| RosterProperties.EntriesLayout | src/mls_roster_profiles/models.py:318-319 | row `i` of table `k` is entry number "rows of the tables before `k`, plus `i`", so entries run table by table and row by row |
| RosterProperties.PlayersFromLayout | src/mls_roster_profiles/models.py:317-333 | there is exactly one player per large-table row, in table-then-row order, each built from its own row and table title |
| RosterProperties.PlayersFromFails | src/mls_roster_profiles/models.py:317-331 | the first row whose player fails decides the error |
| RosterModels.ToTeam | src/mls_roster_profiles/models.py:335-352 | `to_team` returns a fresh team holding `TeamFrom`'s record, with fresh players, or its error |
| RosterProperties.TeamFromRule | src/mls_roster_profiles/models.py:343-352 | a player error fails the team. With the players built, the team fails exactly when no "international" title has a count. Otherwise the team copies team name (stripped), construction model (validated) and GAM, and holds the players and the slot count |
| ParseTree.FieldKeyRule | src/mls_roster_profiles/parsimonious/nodes.py:70-76 | the key is the validation alias if set, else the alias if set, else the field name |
| ParseTree.GetListFields | src/mls_roster_profiles/parsimonious/nodes.py:342-347 | the loop collects `ListFields` of the fields |
| ParseTree.ListFieldsMembers | src/mls_roster_profiles/parsimonious/nodes.py:342-347 | a key is listed exactly when some list-typed field has it |
| ParseTree.Flatten | src/mls_roster_profiles/parsimonious/nodes.py:246-271 | flattening yields only atoms: no parse node and no iterable |
| ParseTree.FlattenAppend | src/mls_roster_profiles/parsimonious/nodes.py:264-271 | flattening works item by item, keeping left-to-right order |
| ParseTree.FlattenAtoms | src/mls_roster_profiles/parsimonious/nodes.py:268-269 | a sequence of atoms flattens to itself |
| ParseTree.FlattenIdempotent | src/mls_roster_profiles/parsimonious/nodes.py:246-271 | flattening twice is flattening once |
| ParseTree.FlattenDropsNode | src/mls_roster_profiles/parsimonious/nodes.py:265-266 | a parse node contributes nothing |
| ParseTree.FlattenExpandsList | src/mls_roster_profiles/parsimonious/nodes.py:270-271 | a nested iterable is expanded in place |
| ParseTree.StrVisitRule | src/mls_roster_profiles/parsimonious/nodes.py:287-288 | the string visitor returns a one-key dict of the field name and the text with its surrounding whitespace trimmed |
| ParseTree.IntVisitRejects | src/mls_roster_profiles/parsimonious/nodes.py:324-326 | text holding a character that is not an ASCII digit, space, comma, underscore or sign is not an integer |
| ParseTree.IntVisitGrouped | src/mls_roster_profiles/parsimonious/nodes.py:324-326 | any natural number written with thousands commas reads back as itself |
| ParseTree.IntVisitExample | src/mls_roster_profiles/parsimonious/nodes.py:324-326 | "1,206,065" gives 1206065 |
| Text.ParseIntRoundTrip | src/mls_roster_profiles/parsimonious/nodes.py:326 | `int(str(i)) == i` for every integer |
| Text.StripIdempotent | src/mls_roster_profiles/parsimonious/nodes.py:288 | stripping twice is stripping once |
| Text.StripTrimmed | src/mls_roster_profiles/parsimonious/nodes.py:288 | `strip` removes exactly the leading and trailing whitespace |
| ParseTree.GenericVisitFlatten | src/mls_roster_profiles/parsimonious/nodes.py:402-415 | `generic_visit` returns the node exactly when there are no visited children; either way it flattens to the children's flattening |
| ParseTree.InitialModelRule | src/mls_roster_profiles/parsimonious/nodes.py:373 | the fold starts with every list field mapped to `[]` and nothing else |
| ParseTree.VisitChild | src/mls_roster_profiles/parsimonious/nodes.py:375-393 | one iteration of the model visitor's loop computes `ModelStep` |
| ParseTree.FoldChildren | src/mls_roster_profiles/parsimonious/nodes.py:373-393 | the loop over the flattened children computes the fold of `ModelStep`, stopping at the first error |
| ParseTree.VisitModel | src/mls_roster_profiles/parsimonious/nodes.py:372-398 | the model visitor computes `ModelVisit`: flatten, fold, then wrap when `include_key` |
| ParseTree.MergedSnoc | src/mls_roster_profiles/parsimonious/nodes.py:385-389 | a repeated key stays mergeable exactly unless the first value is a string and the new one is not. A string value gains the new one after a space; any other first value is kept |
| ParseTree.ModelStepKeeps | src/mls_roster_profiles/parsimonious/nodes.py:374-393 | one step keeps the model describing the children seen so far. It fails exactly when a non-string follows a string under the same key, and only with that error |
| ParseTree.ModelFoldRule | src/mls_roster_profiles/parsimonious/nodes.py:373-393 | the fold succeeds exactly when no key repeats a string with a non-string. The result then maps each list field to its values in order (list values extended, others appended), and each other key to its first value, with string repeats space-joined |
| ParseTree.FoldSkipsMalformed | src/mls_roster_profiles/parsimonious/nodes.py:375-378 | a child that is not a one-key dict leaves the fold unchanged |
| ParseTree.ModelVisitNoChildren | src/mls_roster_profiles/parsimonious/nodes.py:373 | with no children, the model holds every list field as `[]` and nothing else |
| ParseTree.ModelVisitWraps | src/mls_roster_profiles/parsimonious/nodes.py:395-398 | with `include_key` the result is `{field_name: model}` of the unwrapped result, and one succeeds exactly when the other does |
| PdfEnums.GlyphValues | src/mls_roster_profiles/pypdf/enum.py:50-57 | `set(DelimiterGlyph)` holds exactly the six glyph values |
| PdfEnums.OperatorValues | src/mls_roster_profiles/pypdf/enum.py:64-65 | iteration yields exactly the byte strings `ET`, `q`, `Q`, `Td`, `Tf`, `Tj`, `TJ`, in the declaration order of lines 83-89 |
| PdfEnums.OperatorOf | src/mls_roster_profiles/pypdf/reader.py:85-98 | the dispatch recognises an operator exactly when its bytes equal that operator's value |
| PdfEnums.DelimiterGlyphsDistinct | src/mls_roster_profiles/pypdf/enum.py:50-57 | the six delimiter glyphs are single characters, pairwise distinct, and END_OBJECT is a newline |
| PdfEnums.FontWeightValuesLowercase | src/mls_roster_profiles/pypdf/enum.py:28-30 | the font-weight values are distinct and already lower case |
| PdfEnums.OperatorContainsRule | src/mls_roster_profiles/pypdf/enum.py:67-70 | membership is false for anything that is not bytes, and for bytes holds exactly when they equal a member's value |
| PdfEnums.OperatorsDistinct | src/mls_roster_profiles/pypdf/enum.py:83-89 | every operator is a member and the seven operator values are pairwise distinct |
| PdfEnums.OperatorOfValue | src/mls_roster_profiles/pypdf/enum.py:83-89 | each operator's value is recognised as that operator |
| PdfModels.WeightRule | src/mls_roster_profiles/pypdf/models.py:121-126 | the weight is bold exactly when "bold" occurs in the lowercased font name; light exactly when "light" occurs and "bold" does not; otherwise regular |
| PdfModels.RaiseOverlappingGlyphsRule | src/mls_roster_profiles/pypdf/models.py:129-141 | the check fails exactly when some glyph equals a delimiter glyph |
| PdfModels.CharactersExcludeDelimiters | src/mls_roster_profiles/pypdf/models.py:145-165 | an accepted glyph map maps no code to a delimiter glyph |
| PdfModels.ComputeWidths | src/mls_roster_profiles/pypdf/models.py:169-187 | the width loop computes `Widths` |
| PdfModels.WidthsUpToRule | src/mls_roster_profiles/pypdf/models.py:182-187 | the loop fails exactly when a code in range with a glyph lies past the Widths array. Otherwise its domain is the codes in range with a glyph, and each maps to `widths[idx - first]` |
| PdfModels.WidthsRule | src/mls_roster_profiles/pypdf/models.py:169-187 | the width map's domain is the codes in `[FirstChar, LastChar]` that have a glyph, each mapped to `widths[idx - FirstChar]`; it fails exactly when the glyph map is refused or a code overruns Widths |
| PdfModels.DecodeByte | src/mls_roster_profiles/pypdf/models.py:236-238 | one byte is looked up in the glyph map, then in the width map |
| PdfModels.Decode | src/mls_roster_profiles/pypdf/models.py:221-240 | the decode loop computes `Decoded`, stopping at the first unknown byte |
| PdfModels.DecodeRule | src/mls_roster_profiles/pypdf/models.py:233-240 | decoding succeeds exactly when every byte is in both maps. It then returns the concatenated glyphs and the summed widths, in byte order |
| PdfModels.DecodeAppend | src/mls_roster_profiles/pypdf/models.py:233-240 | decoding a concatenation concatenates the glyphs and adds the widths |
| PdfModels.FromOperandsRule | src/mls_roster_profiles/pypdf/models.py:206-219 | any operand list whose length is not 2 is refused. A font built from operands has the named resource's base font and dictionary and the given size |
| PdfModels.Ceil | src/mls_roster_profiles/pypdf/models.py:279-283 | the ceiling is the least integer not below its argument |
| PdfModels.BoundingBoxCenters | src/mls_roster_profiles/pypdf/models.py:285-313 | `x_center = x_min + ceil(width/2)`, and `x_min <= x_center <= x_max` when `width >= 0`; the same holds for y |
| PdfModels.AttributeFieldsClean | src/mls_roster_profiles/pypdf/models.py:357-361 | no attribute holds `|` or `《` |
| PdfModels.SerializeRoundTrip | src/mls_roster_profiles/pypdf/models.py:342-367 | with font and box set, serialising succeeds. If the content holds no `《`, the output reads back as the content and the four attributes, and the three coordinates parse back to their values |
| PdfReader.Page.constructor | src/mls_roster_profiles/pypdf/reader.py:37-57 | a new page starts with no text objects, an empty object, no font, an empty stack and zero accumulators |
| PdfReader.Page.EndTextObject | src/mls_roster_profiles/pypdf/reader.py:105-122 | the page state becomes `EndTextObjectStep` of the old one |
| PdfReader.Page.SaveGraphicsState | src/mls_roster_profiles/pypdf/reader.py:124-131 | the page state becomes `SaveGraphicsStateStep` of the old one |
| PdfReader.Page.RestoreGraphicsState | src/mls_roster_profiles/pypdf/reader.py:133-141 | the page state becomes `RestoreGraphicsStateStep` of the old one, or the method reports its error |
| PdfReader.Page.MoveTextPosition | src/mls_roster_profiles/pypdf/reader.py:143-185 | the page state becomes `MoveTextPositionStep` of the old one, or the method reports its error |
| PdfReader.Page.SetFont | src/mls_roster_profiles/pypdf/reader.py:187-198 | the page state becomes `SetFontStep` of the old one, or the method reports its error |
| PdfReader.Page.SetOrigin | src/mls_roster_profiles/pypdf/reader.py:200-227 | the page state becomes `SetOriginStep` of the old one |
| PdfReader.Page.Advance | src/mls_roster_profiles/pypdf/reader.py:241-243 | the page state becomes `Advanced` of the old one, or the method reports its error |
| PdfReader.Page.HandleTextString | src/mls_roster_profiles/pypdf/reader.py:229-243 | the page state becomes `HandleTextStringStep` of the old one, or the method reports its error |
| PdfReader.Page.ShowTextString | src/mls_roster_profiles/pypdf/reader.py:245-257 | the page state becomes `ShowTextStringStep` of the old one, or the method reports its error |
| PdfReader.Page.ShowItem | src/mls_roster_profiles/pypdf/reader.py:272-277 | the page state becomes `ShowItemStep` of the old one, or the method reports its error |
| PdfReader.Page.ShowTextStrings | src/mls_roster_profiles/pypdf/reader.py:259-277 | the page state becomes `ShowTextStringsStep` of the old one, or the method reports its error |
| PdfReader.Page.VisitOperator | src/mls_roster_profiles/pypdf/reader.py:85-98 | one operator moves the page state as `Step` says, or the method reports its error |
| PdfReader.Page.VisitStream | src/mls_roster_profiles/pypdf/reader.py:69-100 | a whole content stream moves the page state as `Run` says, stopping at the first error |
| PdfReader.Page.ExtractText | src/mls_roster_profiles/pypdf/reader.py:59-103 | `extract_text` returns `ExtractedText`: the serialised text objects after the whole stream, or the first error |
| PdfReader.UnknownOperatorIgnored | src/mls_roster_profiles/pypdf/reader.py:85-98 | an operator other than ET, q, Q, Td, Tf, Tj, TJ leaves the page state untouched |
| PdfReader.EndTextObjectRule | src/mls_roster_profiles/pypdf/reader.py:105-122 | closing an object resets the object and the displacement, and closing again changes nothing. Only non-empty content is appended: one trailing `↩` dropped, then stripped, with the current font and the object's box |
| PdfReader.DropReturnRule | src/mls_roster_profiles/pypdf/reader.py:114-115 | exactly one trailing `↩` is removed, and only when present |
| PdfReader.MoveTextPositionLines | src/mls_roster_profiles/pypdf/reader.py:158-173 | `y < 0` with `abs(x + td_x) < 0.3` appends `↩` and adds `y` to `td_y`. A vertical move of at least 1 that is neither a new line nor a return to the line closes the object |
| PdfReader.AddGlyphGains | src/mls_roster_profiles/pypdf/reader.py:158-181 | appending a return, precedes or tab glyph adds at most one delimiter glyph to the end of the content and keeps the object's box and font |
| PdfReader.MoveTextPositionOutcome | src/mls_roster_profiles/pypdf/reader.py:143-185 | a `Td` always leaves the displacement at 0 and the fonts alone. It either closes the object or appends at most one delimiter glyph to it |
| PdfReader.MoveTextPositionFails | src/mls_roster_profiles/pypdf/reader.py:178-183 | a `Td` with two numeric operands can fail only on a small positive x move over non-empty content with no current font |
| PdfReader.MoveTextPositionKeeps | src/mls_roster_profiles/pypdf/reader.py:143-185 | a `Td` never removes finished objects, keeps the font stack, and keeps the box covering the line |
| PdfReader.SetFontRule | src/mls_roster_profiles/pypdf/reader.py:187-198 | `Tf` succeeds exactly when its operands resolve. It then closes the object and switches to the named font at the given size, keeping the stack |
| PdfReader.SaveRestoreRule | src/mls_roster_profiles/pypdf/reader.py:124-141 | `Q` fails exactly on an empty stack. `q` then `Q` restores the font in effect at `q`, after closing the object |
| PdfReader.SaveRestoreAcross | src/mls_roster_profiles/pypdf/reader.py:124-141 | `q`, any stream without `q`/`Q`, then `Q` restores the font and the stack of the time of `q` |
| PdfReader.AdvancedRule | src/mls_roster_profiles/pypdf/reader.py:241-243 | advancing needs a box. It adds the displacement and widens the box to the ceiling of the displacement when that is larger, and never narrows it; nothing else moves |
| PdfReader.ShowTextStringRule | src/mls_roster_profiles/pypdf/reader.py:245-257 | `Tj` decodes its byte operand with the current font and appends the glyphs. The first shown text fixes the box corner at the origin's ceiling; later text keeps it and never narrows it |
| PdfReader.ShowItemRule | src/mls_roster_profiles/pypdf/reader.py:272-277 | one `TJ` element only extends the content and widens the box |
| PdfReader.ShowItemsRule | src/mls_roster_profiles/pypdf/reader.py:272-277 | a whole `TJ` array only extends the content and widens the box |
| PdfReader.ShowTextStringsRule | src/mls_roster_profiles/pypdf/reader.py:259-277 | `TJ` keeps the finished objects and the fonts, only extends the content, and keeps the box covering the line |
| PdfReader.StepRule | src/mls_roster_profiles/pypdf/reader.py:85-98 | no operator removes a finished object or uncovers the line, and every operator but `q`/`Q` keeps the font stack |
| PdfReader.RunRule | src/mls_roster_profiles/pypdf/reader.py:69-100 | the same three facts hold over a whole content stream |
| PdfReader.SerializedTextRule | src/mls_roster_profiles/pypdf/reader.py:102-103 | joining the serialised objects fails exactly when some object lacks a font or a box |
| PdfReader.LoneLineBreakFails | src/mls_roster_profiles/pypdf/reader.py:105-122 | a line break followed by `ET` with no text shown appends an empty object without font or box, so `extract_text` fails |
| PdfReader.LineBreakStep | src/mls_roster_profiles/pypdf/reader.py:158-161 | a downward `Td` at the start of a page appends `↩` to the empty object |
| PdfReader.LineBreakEnd | src/mls_roster_profiles/pypdf/reader.py:113-121 | `ET` on an object holding only `↩` appends an empty object |
| Release.MatchCountRule | src/mls_roster_profiles/__init__.py:45-54 | the search with limit 2 finds one match exactly when exactly one catalogue name scores at least 86, and none exactly when every name scores below 86 |
| Release.ResolvedRule | src/mls_roster_profiles/__init__.py:54-56 | resolution changes only id and name. A changed team has the sole qualifying name and that name's catalogue id |
| Release.ResolveTeamId | src/mls_roster_profiles/__init__.py:45-56 | one team is resolved as `Resolved` says |
| Release.ResolveTeamIds | src/mls_roster_profiles/__init__.py:39-58 | the same list is returned and every team is resolved from its own old record |
| Release.PageOutcomeRule | src/mls_roster_profiles/__init__.py:72-79 | a page whose text lacks `SENIOR ROSTER` adds nothing. A page that adds a team contains the heading, and the team and date come from its interpreted profile |
| Release.GatheringRule | src/mls_roster_profiles/__init__.py:68-79 | over any page outcomes, the release date is unset exactly when no team was found, and there are no more teams than pages |
| Release.CollectingRule | src/mls_roster_profiles/__init__.py:68-79 | over the pages of a document, the same two facts hold |
| Release.CollectingSnoc | src/mls_roster_profiles/__init__.py:71-79 | one more page appends its team and overwrites the release date, or adds nothing |
| Release.GatheringStops | src/mls_roster_profiles/__init__.py:71-79 | the first page that fails decides the error |
| Release.GatheringNext | src/mls_roster_profiles/__init__.py:71-79 | the loop advances one page at a time |
| Release.ReadPage | src/mls_roster_profiles/__init__.py:72-79 | reading one page gives its outcome, with a fresh team object holding the team record |
| Release.ReadNext | src/mls_roster_profiles/__init__.py:71-79 | one iteration of the page loop advances the collected teams and date as `Gather` says, keeping the teams distinct |
| Release.ReadPages | src/mls_roster_profiles/__init__.py:68-79 | the page loop collects what `Gathering` says: fresh, distinct teams in page order and the last roster page's date |
| Release.FromPdf | src/mls_roster_profiles/__init__.py:61-82 | `from_pdf` fails at the first failing page, or without any roster page. Otherwise it returns the last roster page's date and one resolved team per roster page, in order |

## Left out

- The PDF file format is not modelled. pypdf's traversal of a content stream is replaced by the instruction list a page supplies (`Instruction`), each instruction carrying the translation of its text matrix times the CTM. The numpy matrix product of `_set_origin` is therefore an input pair.
- ToUnicode CMap parsing and its `pop(-1)` are not modelled: a font dictionary supplies its glyph map directly. The page's font resources are a map from resource name to dictionary. An unknown name gives an error where the code would fail on `None`.
- The `Type1FontDictionary` validation of a font dictionary (its type and subtype entries) is left out; only FirstChar, LastChar and Widths are kept.
- Floating point is modelled with exact reals: the Td thresholds, `width / 1000 * size`, and the ceiling validator. Rounding of IEEE doubles is not captured.
- The PEG grammar, the parse itself, the reflection that installs visitors (`_create_visitors`, `setattr`, the `_is_*` type tests) and pydantic's `model_validate` are not modelled. `from_pdf` takes them together as a parameter `interpret` from page text to a roster profile or an error.
- Date parsing with dateutil is not modelled; a date is an opaque value.
- The fuzzy scorer (`WRatio` with `default_process`) and the American Soccer Analysis catalogue, fetched over the network, are parameters: a score function and a map from team name to id.
- Logging is left out: unrecognised enum values and skipped children are only logged.
- Text.LowerChar: lowercases ASCII and Latin-1 letters only, not all of Unicode.
- pydantic's `StringConstraints(strip_whitespace=True)` is modelled as a strip of the player name, the contract fields and the team name; other pydantic coercions are not.
- PdfReader.MoveTextPositionStep: an operand that is not a number gives an error before any branch, where Python fails only when a comparison reaches that operand.
- PdfReader.ShowTextStringStep: an operand that is not a byte string gives an error, where Python would iterate over whatever `decode` is given.
- Release.ResolveTeamIds: requires the teams to be distinct objects, which they are when `from_pdf` builds them; the code does not demand it.
- Release.ReadPages: the single page loop of `from_pdf` is split into `ReadPage`, `ReadNext` and `ReadPages`. Their specification is a ghost sequence of page outcomes, tied to the pages by a precondition that `FromPdf` establishes.
- PdfModels.SerializeRoundTrip: requires the content to hold no `《`. `raise_overlapping_glyphs` compares whole glyphs, so a multi-character glyph containing a delimiter would pass and could break the read-back.
- Text.FirstDigitRun: `\d` is taken as the ASCII digits only, not every Unicode decimal digit.
- Text.ParseInt: int() accepts only ASCII digits here. Python's `int()` also accepts other Unicode decimal digits (`int("٣") == 3`), so ParseTree.IntVisitRejects declares such text rejected where Python would read it.
