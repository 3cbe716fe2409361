/** The result normaliser of receipt_recognizer/core.py: alias-based field
    extraction from a loosely-keyed result, numeric and date coercion, the
    standardised base-field record and the boolean field check. */
module Core {
  import opened Wrappers
  import opened Values
  import opened Exceptions
  import opened Constants

  /** `_extract_field(data, *keys)`: the value of the first key, in argument
      order, that is present in `data`, even when that value is `None`;
      `None` when no key is present. */
  function ExtractField(data: Dict, keys: seq<string>): (r: Value)
    ensures (forall k | k in keys :: k !in data) ==> r == Null
    ensures forall i | 0 <= i < |keys| && keys[i] in data ::
              (forall j | 0 <= j < i :: keys[j] !in data) ==> r == data[keys[i]]
  {
    if keys == [] then Null
    else if keys[0] in data then data[keys[0]]
    else ExtractField(data, keys[1..])
  }

  /** `float(value)`: floats as they are, ints by their exact value (rounding
      to a double and the overflow of very large ints are not modelled),
      booleans to 1.0 and 0.0,
      strings by `parse` (which stands for Python's float literal parser),
      anything else raises `TypeError`, shown here as `None`. */
  function PyFloat(v: Value, parse: string -> Option<real>): (r: Option<real>)
    ensures v.Num? ==> r == Some(v.r)
    ensures v.Int? ==> r == Some(v.i as real)
    ensures v.Bool? ==> r == Some(if v.b then 1.0 else 0.0)
    ensures v.Str? ==> r == parse(v.s)
    ensures v.Null? || v.List? || v.Obj? || v.DateTime? ==> r == None
  {
    match v
    case Num(x) => Some(x)
    case Int(i) => Some(i as real)
    case Bool(b) => Some(if b then 1.0 else 0.0)
    case Str(s) => parse(s)
    case _ => None
  }

  /** `_extract_numeric_field`: `None` when nothing is found or the value
      does not convert. */
  function ExtractNumericField(data: Dict, keys: seq<string>, parse: string -> Option<real>): (r: Option<real>)
    ensures (forall k | k in keys :: k !in data) ==> r == None
    ensures ExtractField(data, keys) == Null ==> r == None
    ensures ExtractField(data, keys) != Null ==> r == PyFloat(ExtractField(data, keys), parse)
    ensures ExtractField(data, keys).Num? ==> r == Some(ExtractField(data, keys).r)
  {
    var value := ExtractField(data, keys);
    if value == Null then None else PyFloat(value, parse)
  }

  /** `_extract_date_field`: `None` when nothing is found, the ISO string of
      a value with `isoformat()`, and `str(value)` otherwise. */
  function ExtractDateField(data: Dict, keys: seq<string>, render: Value -> string): (r: Option<string>)
    ensures ExtractField(data, keys) == Null <==> r == None
    ensures ExtractField(data, keys).DateTime? ==> r == Some(ExtractField(data, keys).iso)
    ensures ExtractField(data, keys).Str? ==> r == Some(ExtractField(data, keys).s)
    ensures var v := ExtractField(data, keys);
            v != Null && !v.DateTime? ==> r == Some(PyStr(v, render))
  {
    var value := ExtractField(data, keys);
    if value == Null then None
    else if value.DateTime? then Some(value.iso)
    else Some(PyStr(value, render))
  }

  const SourceAliases: seq<string> := ["sender", "sender_card", "source"]
  const DestinationAliases: seq<string> := ["receiver", "receiver_card", "destination"]
  const AmountAliases: seq<string> := ["amount", "total", "sum"]
  const FeeAliases: seq<string> := ["commission", "fee"]
  const DateAliases: seq<string> := ["date", "datetime", "time"]

  /** The dictionary literal `standardized`: the five base fields, each
      taken from its alias list, plus the raw result under `_raw`. */
  function Standardized(raw: Dict, parse: string -> Option<real>, render: Value -> string): (d: Dict)
    ensures d.Keys == {SOURCE, DESTINATION, AMOUNT, FEE, DATE, "_raw"}
    ensures d[SOURCE] == ExtractField(raw, SourceAliases)
    ensures d[DESTINATION] == ExtractField(raw, DestinationAliases)
    ensures d[AMOUNT] == NumValue(ExtractNumericField(raw, AmountAliases, parse))
    ensures d[FEE] == NumValue(ExtractNumericField(raw, FeeAliases, parse))
    ensures d[DATE] == StrValue(ExtractDateField(raw, DateAliases, render))
    ensures d["_raw"] == Obj(raw)
  {
    map[
      SOURCE := ExtractField(raw, SourceAliases),
      DESTINATION := ExtractField(raw, DestinationAliases),
      AMOUNT := NumValue(ExtractNumericField(raw, AmountAliases, parse)),
      FEE := NumValue(ExtractNumericField(raw, FeeAliases, parse)),
      DATE := StrValue(ExtractDateField(raw, DateAliases, render)),
      "_raw" := Obj(raw)
    ]
  }

  /** Each name in single quotes, as `repr` writes a plain string. */
  function Quoted(items: seq<string>): (q: seq<string>)
    ensures |q| == |items|
    ensures forall i | 0 <= i < |items| :: q[i] == "'" + items[i] + "'"
  {
    seq(|items|, i requires 0 <= i < |items| => "'" + items[i] + "'")
  }

  /** `str(missing_fields)` for a list of plain field names. */
  function ListRepr(items: seq<string>): string {
    "[" + Join(Quoted(items), ", ") + "]"
  }

  /** Every item appears, quoted, in the list's repr, and so in any text
      that starts with `prefix` and goes on with that repr. */
  lemma ListReprNamesItems(items: seq<string>, prefix: string)
    ensures forall f | f in items :: IsInfix(f, prefix + ListRepr(items))
  {
    forall f | f in items ensures IsInfix(f, prefix + ListRepr(items)) {
      var k :| 0 <= k < |items| && items[k] == f;
      ListReprNamesItem(items, prefix, k);
    }
  }

  /** The step for one item of `ListReprNamesItems`. */
  lemma ListReprNamesItem(items: seq<string>, prefix: string, k: nat)
    requires k < |items|
    ensures IsInfix(items[k], prefix + ListRepr(items))
  {
    var quoted := Quoted(items);
    InfixMiddle("'", items[k], "'");
    JoinHasParts(quoted, ", ", k);
    var j := Join(quoted, ", ");
    InfixTransitive(items[k], quoted[k], j);
    var repr := ListRepr(items);
    InfixWiden(items[k], j, "[", "]");
    assert repr == "[" + j + "]";
    InfixWiden(items[k], repr, prefix, "");
    assert prefix + repr + "" == prefix + repr;
  }

  const MissingPrefix: string := "Не удалось извлечь обязательные поля: "

  /** `_standardize_result`: the standardised record when every base field
      is non-`None`; otherwise `ValueError` naming every missing field. */
  function StandardizeResult(raw: Dict, parse: string -> Option<real>, render: Value -> string): (r: Result<Dict, Error>)
    ensures r.Success? <==> forall f | f in BaseFields :: Standardized(raw, parse, render)[f] != Null
    ensures r.Success? ==> r.value == Standardized(raw, parse, render)
    ensures r.Failure? ==> r.error.kind == ValueError
    ensures r.Failure? ==> forall f | f in BaseFields && Standardized(raw, parse, render)[f] == Null ::
                             IsInfix(f, r.error.message)
  {
    var standardized := Standardized(raw, parse, render);
    var missing := MissingFields(standardized, BaseFields);
    NothingMissing(standardized, BaseFields);
    if missing != [] then
      ListReprNamesItems(missing, MissingPrefix);
      Failure(Error(ValueError, MissingPrefix + ListRepr(missing)))
    else
      Success(standardized)
  }

  /** `validate_fields`: every base field is present and not `None`. */
  function ValidateFields(result: Dict): (r: bool)
    ensures r <==> MissingFields(result, BaseFields) == []
  {
    NothingMissing(result, BaseFields);
    forall f | f in BaseFields :: f in result && result[f] != Null
  }

  /** A first-listed alias shadows later ones even when it holds `None`,
      so a record with `sender: None` and `source: "x"` has no source. */
  lemma NoneAliasShadowsLater(raw: Dict, later: Value)
    requires "sender" in raw && raw["sender"] == Null
    ensures ExtractField(raw, SourceAliases) == Null
  {
    assert SourceAliases[0] == "sender";
  }
}
