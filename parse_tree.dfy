/**
  How the roster grammar's parse tree becomes the nested dictionaries that the record
  classes are validated from: the field key a visitor answers to, the flattening of
  visited children, the terminal visitors for text and integers, and the per-record
  fold that merges the children's one-key dictionaries into one dictionary.
*/
module ParseTree {
  import opened Wrappers
  import opened Text

  /** A Python value as the visitors pass it around. */
  datatype Value =
    | Str(s: string)
    | Int(i: int)
    | Bytes(data: seq<int>)
    | Other(repr: string)                // any other object that is not iterable (a date, None, ...)
    | Dict(items: seq<(string, Value)>)  // a dict: distinct keys, in insertion order
    | List(elems: seq<Value>)            // a list; flattening would expand a tuple too, but the record
                                         // fold extends only a real list, and no visitor yields a tuple
    | Node(text: string)                 // a parse-tree node, as `generic_visit` may return it

  /** The items of a dict, in insertion order. */
  type Items = seq<(string, Value)>

  // ---------------------------------------------------------------------------
  // Field keys

  /** One field of a record class: its name, its aliases and whether it is annotated `list[...]`. */
  datatype Field = Field(name: string, validationAlias: Option<string>, alias: Option<string>, isList: bool)

  /** Python truthiness of an optional string. */
  predicate Truthy(o: Option<string>) {
    o.Some? && o.value != ""
  }

  /** `_get_fields`: the key a field's visitor answers to. */
  function FieldKey(f: Field): string {
    if Truthy(f.validationAlias) then f.validationAlias.value
    else if Truthy(f.alias) then f.alias.value
    else f.name
  }

  /** `_get_list_fields`, as a value: the keys of the list-typed fields, in declaration order. */
  function ListFields(fields: seq<Field>): (r: seq<string>)
    ensures |r| <= |fields|
    decreases |fields|
  {
    if fields == [] then []
    else
      var last := fields[|fields| - 1];
      ListFields(fields[..|fields| - 1]) + (if last.isList then [FieldKey(last)] else [])
  }

  /** `_get_list_fields`: appends the key of every list-typed field. */
  method GetListFields(fields: seq<Field>) returns (listFields: seq<string>)
    ensures listFields == ListFields(fields)
  {
    listFields := [];
    for i := 0 to |fields|
      invariant listFields == ListFields(fields[..i])
    {
      assert fields[..i + 1][..i] == fields[..i];
      if fields[i].isList {
        listFields := listFields + [FieldKey(fields[i])];
      }
    }
    assert fields[..|fields|] == fields;
  }

  // ---------------------------------------------------------------------------
  // Flattening

  /** What flattening yields as it is: not a parse node and not an iterable to expand. */
  predicate IsAtom(v: Value) {
    !v.Node? && !v.List?
  }

  /** `flatten` on one item: a node is dropped, an iterable expanded, anything else kept. */
  function FlattenItem(v: Value): (r: seq<Value>)
    ensures forall x :: x in r ==> IsAtom(x)
    decreases v
  {
    match v
    case Node(_) => []
    case List(ys) => Flatten(ys)
    case _ => [v]
  }

  /** `NodeVisitor.flatten`. */
  function Flatten(xs: seq<Value>): (r: seq<Value>)
    ensures forall x :: x in r ==> IsAtom(x)
    decreases xs
  {
    if xs == [] then [] else FlattenItem(xs[0]) + Flatten(xs[1..])
  }

  /** Flattening works item by item, left to right. */
  lemma {:induction false} FlattenAppend(xs: seq<Value>, ys: seq<Value>)
    ensures Flatten(xs + ys) == Flatten(xs) + Flatten(ys)
    decreases |xs|
  {
    if xs == [] {
      assert xs + ys == ys;
    } else {
      assert (xs + ys)[0] == xs[0];
      assert (xs + ys)[1..] == xs[1..] + ys;
      FlattenAppend(xs[1..], ys);
    }
  }

  /** Atoms come out unchanged, in their order. */
  lemma {:induction false} FlattenAtoms(xs: seq<Value>)
    requires forall x :: x in xs ==> IsAtom(x)
    ensures Flatten(xs) == xs
    decreases |xs|
  {
    if xs != [] {
      assert xs[0] in xs;
      assert forall x :: x in xs[1..] ==> x in xs;
      FlattenAtoms(xs[1..]);
    }
  }

  /** Flattening twice is flattening once. */
  lemma FlattenIdempotent(xs: seq<Value>)
    ensures Flatten(Flatten(xs)) == Flatten(xs)
  {
    FlattenAtoms(Flatten(xs));
  }

  /** A parse node anywhere among the children contributes nothing. */
  lemma FlattenDropsNode(xs: seq<Value>, text: string, ys: seq<Value>)
    ensures Flatten(xs + [Node(text)] + ys) == Flatten(xs + ys)
  {
    FlattenAppend(xs + [Node(text)], ys);
    FlattenAppend(xs, [Node(text)]);
    FlattenAppend(xs, ys);
  }

  /** A nested iterable contributes its own flattening in place. */
  lemma FlattenExpandsList(xs: seq<Value>, inner: seq<Value>, ys: seq<Value>)
    ensures Flatten(xs + [List(inner)] + ys) == Flatten(xs) + Flatten(inner) + Flatten(ys)
  {
    FlattenAppend(xs + [List(inner)], ys);
    FlattenAppend(xs, [List(inner)]);
  }

  // ---------------------------------------------------------------------------
  // Terminal visitors and the fallback

  /** The visitor of a `str` field: `{field: node.text.strip()}`. */
  function StrVisit(fieldName: string, text: string): Value {
    Dict([(fieldName, Str(Strip(text)))])
  }

  /** The visitor of an `int` field: strip, delete every comma, then `int()`. */
  function IntVisit(fieldName: string, text: string): Result<Value> {
    match ParseInt(Without(Strip(text), ','))
    case None => Err(NotAnInteger)
    case Some(n) => Ok(Dict([(fieldName, Int(n))]))
  }

  /** `generic_visit`: the visited children when there are any, otherwise the node itself. */
  function GenericVisit(text: string, visitedChildren: seq<Value>): Value {
    if visitedChildren == [] then Node(text) else List(visitedChildren)
  }

  /** The three digits of `m < 1000`, zero-padded: the group after a thousands comma. */
  function ThreeDigits(m: nat): string
    requires m < 1000
  {
    [DigitChar(m / 100), DigitChar(m / 10 % 10), DigitChar(m % 10)]
  }

  /** `n` written with a comma between thousands groups, as the roster prints amounts. */
  function Grouped(n: nat): string
    decreases n
  {
    if n < 1000 then DecimalString(n) else Grouped(n / 1000) + "," + ThreeDigits(n % 1000)
  }

  // ---------------------------------------------------------------------------
  // The record fold

  /** The first value stored under `k`. */
  function Lookup(d: Items, k: string): (r: Option<Value>)
    ensures r.Some? <==> k in Keys(d)
  {
    if d == [] then None
    else if d[0].0 == k then Some(d[0].1)
    else Lookup(d[1..], k)
  }

  function Keys(d: Items): (r: seq<string>)
    ensures |r| == |d|
    ensures forall i :: 0 <= i < |d| ==> r[i] == d[i].0
  {
    if d == [] then [] else [d[0].0] + Keys(d[1..])
  }

  /** `d[k] = v`: the value of an existing key is replaced in place, a new key goes last. */
  function Put(d: Items, k: string, v: Value): Items {
    if d == [] then [(k, v)]
    else if d[0].0 == k then [(k, v)] + d[1..]
    else [d[0]] + Put(d[1..], k, v)
  }

  /** The `{field: [] for field in list_fields}` the fold starts from. */
  function InitialModel(listFields: seq<string>): Items
    decreases |listFields|
  {
    if listFields == [] then []
    else Put(InitialModel(listFields[..|listFields| - 1]), listFields[|listFields| - 1], List([]))
  }

  /** The key and value of a one-key dict; None for anything the fold skips. */
  function OneKey(child: Value): Option<(string, Value)> {
    if child.Dict? && |child.items| == 1 then Some(child.items[0]) else None
  }

  /** What a list field gains from a value: `extend` for a list, `append` otherwise. */
  function ListAddition(value: Value): seq<Value> {
    if value.List? then value.elems else [value]
  }

  /** One iteration of the `_add_model_visitor` loop. */
  function ModelStep(listFields: seq<string>, model: Items, child: Value): Result<Items> {
    match OneKey(child)
    case None => Ok(model)
    case Some(kv) =>
      var key, value := kv.0, kv.1;
      if key in listFields then
        match Lookup(model, key)
        case Some(List(xs)) => Ok(Put(model, key, List(xs + ListAddition(value))))
        case _ => Ok(model)  // a list field always holds a list (ModelFoldRule)
      else
        match Lookup(model, key)
        case None => Ok(Put(model, key, value))
        case Some(Str(s)) =>
          if value.Str? then Ok(Put(model, key, Str(s + " " + value.s))) else Err(ConcatenateNonString)
        case Some(_) => Ok(model)
  }

  function ModelSteps(listFields: seq<string>): (Items, Value) -> Result<Items> {
    (model, child) => ModelStep(listFields, model, child)
  }

  /** The dict the model visitor builds from the flattened children. */
  function ModelFold(listFields: seq<string>, visitedChildren: seq<Value>): Result<Items> {
    FoldResult(InitialModel(listFields), Flatten(visitedChildren), ModelSteps(listFields))
  }

  /** The model visitor's result: the dict, wrapped as `{field_name: model}` when `include_key`. */
  function ModelVisit(fieldName: string, listFields: seq<string>, includeKey: bool,
                      visitedChildren: seq<Value>): Result<Value>
  {
    match ModelFold(listFields, visitedChildren)
    case Err(e) => Err(e)
    case Ok(model) => Ok(if includeKey then Dict([(fieldName, Dict(model))]) else Dict(model))
  }

  /** The visitor `_add_model_visitor` installs, run on one node's visited children. */
  method VisitModel(fieldName: string, listFields: seq<string>, includeKey: bool,
                    visitedChildren: seq<Value>) returns (r: Result<Value>)
    ensures r == ModelVisit(fieldName, listFields, includeKey, visitedChildren)
  {
    var children := Flatten(visitedChildren);
    var model := FoldChildren(listFields, children);
    if model.Err? {
      return Err(model.error);
    }
    if includeKey {
      r := Ok(Dict([(fieldName, Dict(model.value))]));
    } else {
      r := Ok(Dict(model.value));
    }
  }

  /** The model visitor's loop over the flattened children, stopping at the first that raises. */
  method FoldChildren(listFields: seq<string>, children: seq<Value>) returns (r: Result<Items>)
    ensures r == FoldResult(InitialModel(listFields), children, ModelSteps(listFields))
  {
    var model := InitialModel(listFields);
    for i := 0 to |children|
      invariant FoldResult(InitialModel(listFields), children[..i], ModelSteps(listFields)) == Ok(model)
    {
      var child := children[i];
      assert children[..i + 1] == children[..i] + [child];
      FoldResultSnoc(InitialModel(listFields), children[..i], child, ModelSteps(listFields));
      var next := VisitChild(listFields, model, child);
      if next.Err? {
        FoldResultErrSticky(InitialModel(listFields), children[..i + 1], children[i + 1..], ModelSteps(listFields));
        assert children[..i + 1] + children[i + 1..] == children;
        return Err(next.error);
      }
      model := next.value;
    }
    assert children[..|children|] == children;
    r := Ok(model);
  }

  /** The body of the model visitor's loop, for one flattened child. */
  method VisitChild(listFields: seq<string>, model: Items, child: Value) returns (r: Result<Items>)
    ensures r == ModelStep(listFields, model, child)
  {
    r := Ok(model);
    if child.Dict? && |child.items| == 1 {
      var key, value := child.items[0].0, child.items[0].1;
      var current := Lookup(model, key);
      if key in listFields {
        if current.Some? && current.value.List? {
          if value.List? {
            r := Ok(Put(model, key, List(current.value.elems + value.elems)));
          } else {
            r := Ok(Put(model, key, List(current.value.elems + [value])));
          }
        }
      } else if current.Some? {
        if current.value.Str? {
          if !value.Str? {
            return Err(ConcatenateNonString);
          }
          r := Ok(Put(model, key, Str(current.value.s + " " + value.s)));
        }
      } else {
        r := Ok(Put(model, key, value));
      }
    }
  }

  // ---------------------------------------------------------------------------
  // Properties of the field keys and the terminal visitors

  /** `validation_alias` wins over `alias`, which wins over the field's own name. */
  lemma FieldKeyRule(f: Field)
    ensures Truthy(f.validationAlias) ==> FieldKey(f) == f.validationAlias.value
    ensures !Truthy(f.validationAlias) && Truthy(f.alias) ==> FieldKey(f) == f.alias.value
    ensures !Truthy(f.validationAlias) && !Truthy(f.alias) ==> FieldKey(f) == f.name
  {
  }

  /** A key is a list field exactly when some list-typed field answers to it. */
  lemma {:induction false} ListFieldsMembers(fields: seq<Field>, k: string)
    ensures k in ListFields(fields) <==> exists f :: f in fields && f.isList && FieldKey(f) == k
    decreases |fields|
  {
    if fields != [] {
      var init := fields[..|fields| - 1];
      ListFieldsMembers(init, k);
      assert fields == init + [fields[|fields| - 1]];
      assert forall f :: f in fields <==> f in init || f == fields[|fields| - 1];
    }
  }

  /** The string visitor yields a one-key dict whose text is `text` without its surrounding whitespace. */
  lemma StrVisitRule(fieldName: string, text: string)
    ensures exists t :: OneKey(StrVisit(fieldName, text)) == Some((fieldName, Str(t))) && Trimmed(text, t)
  {
    StripTrimmed(text);
    assert OneKey(StrVisit(fieldName, text)) == Some((fieldName, Str(Strip(text))));
  }

  /** Any letter or other stray character makes the integer visitor fail. */
  lemma IntVisitRejects(fieldName: string, text: string, c: char)
    requires c in text
    requires !IsSpace(c) && !IsDigit(c) && c != ',' && c != '_' && c != '+' && c != '-'
    ensures IntVisit(fieldName, text) == Err(NotAnInteger)
  {
    StripKeepsNonSpace(text, c);
    var body := Without(Strip(text), ',');
    WithoutKeeps(Strip(text), c, ',');
    StripKeepsNonSpace(body, c);
    ParseSignedRejects(Strip(body), c);
  }

  /** Removing the group commas of `Grouped(n)` gives back `str(n)`. */
  lemma {:induction false} GroupedDigits(n: nat)
    ensures Without(Grouped(n), ',') == DecimalString(n)
    decreases n
  {
    if n < 1000 {
      DecimalStringNoChar(n, ',');
      WithoutAbsent(DecimalString(n), ',');
    } else {
      var q, m := n / 1000, n % 1000;
      var g, t := Grouped(q), ThreeDigits(m);
      assert Grouped(n) == (g + ",") + t;
      GroupedDigits(q);
      WithoutAppend(g + ",", t, ',');
      WithoutAppend(g, ",", ',');
      assert Without(",", ',') == [];
      WithoutAbsent(t, ',');
      DecimalStringThousands(n);
    }
  }

  /** `Grouped(n)` begins and ends with a digit. */
  lemma {:induction false} GroupedEnds(n: nat)
    ensures |Grouped(n)| > 0 && IsDigit(Grouped(n)[0]) && IsDigit(Grouped(n)[|Grouped(n)| - 1])
    decreases n
  {
    if n < 1000 {
      DecimalStringRoundTrip(n);
      assert DecimalString(n)[0] in DecimalString(n);
      assert DecimalString(n)[|DecimalString(n)| - 1] in DecimalString(n);
    } else {
      GroupedEnds(n / 1000);
    }
  }

  /** Above 999 the last three decimal digits of `n` are those of `n % 1000`, zero-padded. */
  lemma DecimalStringThousands(n: nat)
    requires n >= 1000
    ensures DecimalString(n) == DecimalString(n / 1000) + ThreeDigits(n % 1000)
  {
    var q, m := n / 1000, n % 1000;
    var a, b := n / 10, n / 100;
    ThousandsDigits(n);
    assert DecimalString(n) == DecimalString(a) + [DigitChar(m % 10)];
    assert DecimalString(a) == DecimalString(b) + [DigitChar(m / 10 % 10)];
    assert DecimalString(b) == DecimalString(q) + [DigitChar(m / 100)];
  }

  /** `n` divided by ten is a hundred times `n / 1000` plus the tens of `n % 1000`. */
  lemma TensOf(n: nat)
    ensures n / 10 == 100 * (n / 1000) + n % 1000 / 10 && n % 10 == n % 1000 % 10
  {
  }

  /** `n` divided by a hundred is ten times `n / 1000` plus the hundreds of `n % 1000`. */
  lemma HundredsOf(n: nat)
    ensures n / 100 == 10 * (n / 1000) + n % 1000 / 100
  {
  }

  /** The last three decimal digits of `n`, peeled off one at a time, are those of `n % 1000`. */
  lemma ThousandsDigits(n: nat)
    ensures n % 10 == n % 1000 % 10
    ensures n / 10 % 10 == n % 1000 / 10 % 10 && n / 10 / 10 == n / 100
    ensures n / 100 % 10 == n % 1000 / 100 && n / 100 / 10 == n / 1000
  {
    var q, m := n / 1000, n % 1000;
    TensOf(n);
    HundredsOf(n);
    ShiftTen(10 * q, m / 10);
    ShiftTen(q, m / 100);
    assert m / 10 / 10 == m / 100;
  }

  lemma ShiftTen(k: nat, y: nat)
    ensures (10 * k + y) % 10 == y % 10 && (10 * k + y) / 10 == k + y / 10
  {
  }

  /** The integer visitor reads back any amount printed with thousands commas. */
  lemma IntVisitGrouped(fieldName: string, n: nat)
    ensures IntVisit(fieldName, Grouped(n)) == Ok(Dict([(fieldName, Int(n))]))
  {
    GroupedDigits(n);
    GroupedEnds(n);
    var g := Grouped(n);
    assert g[0] in g && g[|g| - 1] in g;
    StripUnchanged(g);
    ParseIntRoundTrip(n);
  }

  /** The amount "1,206,065" is read as 1206065. */
  lemma IntVisitExample(fieldName: string)
    ensures IntVisit(fieldName, "1,206,065") == Ok(Dict([(fieldName, Int(1206065))]))
  {
    assert Grouped(1206065) == "1,206,065";
    IntVisitGrouped(fieldName, 1206065);
  }

  /** Flattening cannot tell a node the fallback visitor returned from its children. */
  lemma GenericVisitFlatten(text: string, visitedChildren: seq<Value>)
    ensures GenericVisit(text, visitedChildren).Node? <==> visitedChildren == []
    ensures Flatten([GenericVisit(text, visitedChildren)]) == Flatten(visitedChildren)
  {
    assert [GenericVisit(text, visitedChildren)][1..] == [];
  }

  // ---------------------------------------------------------------------------
  // Properties of the record fold

  lemma {:induction false} LookupPut(d: Items, k: string, v: Value, j: string)
    ensures Lookup(Put(d, k, v), j) == if j == k then Some(v) else Lookup(d, j)
    decreases |d|
  {
    if d != [] && d[0].0 != k {
      LookupPut(d[1..], k, v, j);
      assert Put(d, k, v)[1..] == Put(d[1..], k, v);
    } else if d != [] {
      assert Put(d, k, v)[1..] == d[1..];
    }
  }

  /** `d[k] = v` keeps the key order; a new key goes last. */
  lemma {:induction false} PutKeys(d: Items, k: string, v: Value)
    ensures Keys(Put(d, k, v)) == if k in Keys(d) then Keys(d) else Keys(d) + [k]
    decreases |d|
  {
    if d != [] && d[0].0 != k {
      PutKeys(d[1..], k, v);
      assert Put(d, k, v)[1..] == Put(d[1..], k, v);
      assert Keys(d) == [d[0].0] + Keys(d[1..]);
      assert k in Keys(d) <==> k in Keys(d[1..]);
    } else if d != [] {
      assert Keys(d) == [k] + Keys(d[1..]);
    }
  }

  /** Every list field starts out present and empty, and nothing else is present. */
  lemma {:induction false} InitialModelRule(listFields: seq<string>, k: string)
    ensures Lookup(InitialModel(listFields), k) == if k in listFields then Some(List([])) else None
    decreases |listFields|
  {
    if listFields != [] {
      var init := listFields[..|listFields| - 1];
      InitialModelRule(init, k);
      LookupPut(InitialModel(init), listFields[|listFields| - 1], List([]), k);
      assert listFields == init + [listFields[|listFields| - 1]];
    }
  }

  /** All that the children with key `k` add to the list field `k`, in order. */
  function ListContribution(children: seq<Value>, k: string): seq<Value>
    decreases |children|
  {
    if children == [] then []
    else
      var last := children[|children| - 1];
      ListContribution(children[..|children| - 1], k)
        + (match OneKey(last) case Some(kv) => (if kv.0 == k then ListAddition(kv.1) else []) case None => [])
  }

  /** The values the one-key children carry under `k`, in order. */
  function KeyValues(children: seq<Value>, k: string): seq<Value>
    decreases |children|
  {
    if children == [] then []
    else
      var last := children[|children| - 1];
      KeyValues(children[..|children| - 1], k)
        + (match OneKey(last) case Some(kv) => (if kv.0 == k then [kv.1] else []) case None => [])
  }

  /** The text of a `str`, and "" for anything else. */
  function TextOf(v: Value): string {
    if v.Str? then v.s else ""
  }

  function Texts(vs: seq<Value>): (r: seq<string>)
    ensures |r| == |vs|
    decreases |vs|
  {
    if vs == [] then [] else Texts(vs[..|vs| - 1]) + [TextOf(vs[|vs| - 1])]
  }

  /** Values of a repeated key that can be merged: a first value that is a `str` only meets more `str`s. */
  predicate Mergeable(vs: seq<Value>) {
    vs == [] || !vs[0].Str? || forall i :: 0 <= i < |vs| ==> vs[i].Str?
  }

  /**
    What a key outside the list fields ends up holding: nothing when no child names it;
    the space-joined texts when the first value is a `str`; the first value otherwise.
  */
  function Merged(vs: seq<Value>): Option<Value> {
    if vs == [] then None
    else if vs[0].Str? then Some(Str(Join(' ', Texts(vs))))
    else Some(vs[0])
  }

  /** What the fold holds under each key after the given children. */
  function Expected(listFields: seq<string>, children: seq<Value>, k: string): Option<Value> {
    if k in listFields then Some(List(ListContribution(children, k))) else Merged(KeyValues(children, k))
  }

  ghost predicate Describes(listFields: seq<string>, children: seq<Value>, model: Items) {
    forall k :: Lookup(model, k) == Expected(listFields, children, k)
  }

  ghost predicate AllMergeable(listFields: seq<string>, children: seq<Value>) {
    forall k :: k !in listFields ==> Mergeable(KeyValues(children, k))
  }

  lemma MergeablePrefix(vs: seq<Value>, ws: seq<Value>)
    requires Mergeable(vs + ws)
    ensures Mergeable(vs)
  {
    if vs != [] && vs[0].Str? {
      assert forall i :: 0 <= i < |vs| ==> vs[i] == (vs + ws)[i];
    }
  }

  /** One more value under a key outside the list fields, as the fold's `elif`/`else` branches treat it. */
  lemma MergedSnoc(vs: seq<Value>, v: Value)
    requires Mergeable(vs)
    ensures Mergeable(vs + [v]) <==> !(vs != [] && vs[0].Str? && !v.Str?)
    ensures Mergeable(vs + [v]) ==>
              Merged(vs + [v]) == match Merged(vs)
                                  case None => Some(v)
                                  case Some(Str(s)) => Some(Str(s + " " + v.s))
                                  case Some(w) => Some(w)
  {
    var ws := vs + [v];
    assert ws[..|vs|] == vs;
    assert Texts(ws) == Texts(vs) + [TextOf(v)];
    if vs == [] {
      assert Texts(ws) == [TextOf(v)];
    } else {
      assert ws[0] == vs[0];
      if vs[0].Str? && v.Str? {
        assert forall i :: 0 <= i < |ws| ==> ws[i].Str? by {
          assert forall i :: 0 <= i < |vs| ==> ws[i] == vs[i];
        }
        JoinSnoc(' ', Texts(vs), v.s);
      }
    }
  }

  /** One step of the fold keeps `Describes` and fails exactly on a `str` key meeting a non-`str` value. */
  lemma ModelStepKeeps(listFields: seq<string>, children: seq<Value>, model: Items, child: Value)
    requires Describes(listFields, children, model) && AllMergeable(listFields, children)
    ensures ModelStep(listFields, model, child).Ok? <==> AllMergeable(listFields, children + [child])
    ensures ModelStep(listFields, model, child).Ok? ==>
              Describes(listFields, children + [child], ModelStep(listFields, model, child).value)
    ensures ModelStep(listFields, model, child).Err? ==>
              ModelStep(listFields, model, child).error == ConcatenateNonString
  {
    var next := children + [child];
    assert next[..|children|] == children;
    match OneKey(child)
    case None =>
      assert forall k :: KeyValues(next, k) == KeyValues(children, k);
      assert forall k :: ListContribution(next, k) == ListContribution(children, k);
    case Some(kv) =>
      var key, value := kv.0, kv.1;
      assert forall k :: k != key ==> KeyValues(next, k) == KeyValues(children, k);
      assert forall k :: k != key ==> ListContribution(next, k) == ListContribution(children, k);
      assert KeyValues(next, key) == KeyValues(children, key) + [value];
      assert ListContribution(next, key) == ListContribution(children, key) + ListAddition(value);
      assert Lookup(model, key) == Expected(listFields, children, key);
      if key in listFields {
        var m' := Put(model, key, List(ListContribution(next, key)));
        forall k ensures Lookup(m', k) == Expected(listFields, next, k) {
          LookupPut(model, key, List(ListContribution(next, key)), k);
        }
        assert AllMergeable(listFields, next) by {
          forall k | k !in listFields ensures Mergeable(KeyValues(next, k)) {
            assert k != key;
          }
        }
      } else {
        var vs := KeyValues(children, key);
        MergedSnoc(vs, value);
        var r := ModelStep(listFields, model, child);
        if r.Ok? {
          var current := Lookup(model, key);
          if current.None? || current.value.Str? {
            var w := Merged(vs + [value]).value;
            assert r.value == Put(model, key, w);
            forall k ensures Lookup(r.value, k) == Expected(listFields, next, k) {
              LookupPut(model, key, w, k);
            }
          }
          forall k | k !in listFields ensures Mergeable(KeyValues(next, k)) {
            if k != key {
              assert KeyValues(next, k) == KeyValues(children, k);
            }
          }
        } else {
          assert !Mergeable(KeyValues(next, key));
        }
      }
  }

  /**
    The whole fold. It succeeds exactly when no key outside the list fields meets a
    non-`str` value after a first `str` one (that case is the `TypeError` of `" " + value`),
    and then every list field holds all its children's contributions in order (an empty
    list when there are none), every other key holds the space-joined texts of its values
    when the first is a `str` and the first value otherwise, and no other key is present.
  */
  lemma {:induction false} ModelFoldRule(listFields: seq<string>, children: seq<Value>)
    ensures var r := FoldResult(InitialModel(listFields), children, ModelSteps(listFields));
            && (r.Ok? <==> AllMergeable(listFields, children))
            && (r.Ok? ==> Describes(listFields, children, r.value))
            && (r.Err? ==> r.error == ConcatenateNonString)
    decreases |children|
  {
    var init := InitialModel(listFields);
    if children == [] {
      forall k ensures Lookup(init, k) == Expected(listFields, children, k) {
        InitialModelRule(listFields, k);
      }
    } else {
      var prefix, last := children[..|children| - 1], children[|children| - 1];
      ModelFoldRule(listFields, prefix);
      assert children == prefix + [last];
      var p := FoldResult(init, prefix, ModelSteps(listFields));
      if p.Ok? {
        ModelStepKeeps(listFields, prefix, p.value, last);
      } else {
        var k :| k !in listFields && !Mergeable(KeyValues(prefix, k));
        if Mergeable(KeyValues(children, k)) {
          assert children[..|prefix|] == prefix;
          var extra := KeyValues(children, k)[|KeyValues(prefix, k)|..];
          assert KeyValues(children, k) == KeyValues(prefix, k) + extra;
          MergeablePrefix(KeyValues(prefix, k), extra);
        }
      }
    }
  }

  /** A child that is not a one-key dict leaves the fold as it was. */
  lemma FoldSkipsMalformed(listFields: seq<string>, children: seq<Value>, child: Value)
    requires OneKey(child).None?
    ensures FoldResult(InitialModel(listFields), children + [child], ModelSteps(listFields))
            == FoldResult(InitialModel(listFields), children, ModelSteps(listFields))
  {
    FoldResultSnoc(InitialModel(listFields), children, child, ModelSteps(listFields));
  }

  /** With no children at all, the record holds exactly the list fields, each empty. */
  lemma ModelVisitNoChildren(fieldName: string, listFields: seq<string>, k: string)
    ensures ModelVisit(fieldName, listFields, false, []).Ok?
    ensures Lookup(ModelVisit(fieldName, listFields, false, []).value.items, k)
            == if k in listFields then Some(List([])) else None
  {
    InitialModelRule(listFields, k);
  }

  /** With `include_key` the record is wrapped as `{field_name: model}`; without it, returned as is. */
  lemma ModelVisitWraps(fieldName: string, listFields: seq<string>, visitedChildren: seq<Value>)
    ensures ModelVisit(fieldName, listFields, true, visitedChildren).Ok?
            <==> ModelVisit(fieldName, listFields, false, visitedChildren).Ok?
    ensures ModelVisit(fieldName, listFields, true, visitedChildren).Ok? ==>
              ModelVisit(fieldName, listFields, true, visitedChildren).value
              == Dict([(fieldName, ModelVisit(fieldName, listFields, false, visitedChildren).value)])
  {
  }
}
