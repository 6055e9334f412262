/** process_custom_fields: a document's custom-field entries, read against
    the field definitions, become one flat name -> cell dictionary and the
    list of monetary column names. */
module CustomFields {
  import opened Wrappers
  import opened Strings
  import opened Json
  import opened Dicts
  import opened Currency

  /** One entry of the definitions map that get_custom_field_definitions
      builds: the field's name, its data_type, and for a select field its
      options by position. */
  datatype FieldDef = FieldDef(name: string, dataType: string, choices: map<int, string>)

  /** One element of a document's `custom_fields` list: its "field" id and
      its "value" (None where the key is absent). */
  datatype Entry = Entry(field: Option<int>, value: Option<Value>)

  /** What a spreadsheet cell holds: a JSON value as read, the number
      parse_currency makes, or what format_currency makes. */
  datatype Cell = Raw(v: Value) | Amount(d: Decimal) | Money(f: Formatted)

  /** The pair process_custom_fields returns. */
  datatype Fields = Fields(cells: Dict<string, Cell>, currency: seq<string>)

  const NoFields := Fields([], [])

  /** `not field_id`: the id is missing, null or 0. */
  predicate Falsy(field: Option<int>) {
    field.None? || field.value == 0
  }

  /** custom_fields_map.get(field_id, {}) read with .get("name", "Feld <id>")
      and .get("type", "string"): an unknown id gets a placeholder name and
      is treated as a plain string field. */
  function Lookup(defs: map<int, FieldDef>, id: int): (r: FieldDef)
    ensures id !in defs ==> r.dataType == "string" && r.name == "Feld " + IntToString(id)
    ensures id in defs ==> r == defs[id]
  {
    if id in defs then defs[id] else FieldDef("Feld " + IntToString(id), "string", map[])
  }

  /** choices.get(value, "Wert <value>"): the options are keyed by int, so
      only an int value that is an option's index finds its label. */
  function SelectLabel(choices: map<int, string>, v: Value): (r: string)
    ensures v.Int? && v.i in choices ==> r == choices[v.i]
    ensures !(v.Int? && v.i in choices) ==> r == "Wert " + Str(v)
  {
    if v.Int? && v.i in choices then choices[v.i] else "Wert " + Str(v)
  }

  /** The value an entry carries: custom_field.get("value", ""). */
  function ValueOf(e: Entry): Value {
    e.value.GetOr(Text(""))
  }

  /** The definition an entry with a truthy id is read against. */
  function DefOf(defs: map<int, FieldDef>, e: Entry): FieldDef
    requires !Falsy(e.field)
  {
    Lookup(defs, e.field.value)
  }

  /** The entry makes format_currency raise: a monetary field whose value
      is an int. */
  predicate Raises(defs: map<int, FieldDef>, e: Entry) {
    !Falsy(e.field) && DefOf(defs, e).dataType == "monetary" && ValueOf(e).Int?
  }

  /** One turn of the loop body, applied to the dictionary and list built so far. */
  function Apply(defs: map<int, FieldDef>, acc: Fields, e: Entry): Result<Fields, string>
  {
    if Falsy(e.field) then Success(acc)
    else
      var info := DefOf(defs, e);
      var v := ValueOf(e);
      if info.dataType == "monetary" then
        match FormatCurrency(v)
        case Failure(err) => Failure(err)
        case Success(f) =>
          var cells := Put(Put(acc.cells, info.name, Amount(ParseCurrency(v))), info.name + "_formatted", Money(f));
          Success(Fields(cells, acc.currency + [info.name]))
      else if info.dataType == "select" then
        Success(Fields(Put(acc.cells, info.name, Raw(Text(SelectLabel(info.choices, v)))), acc.currency))
      else
        Success(Fields(Put(acc.cells, info.name, Raw(v)), acc.currency))
  }

  /** The loop over a whole list of entries, in order; the first raise ends it. */
  function ResolveAll(defs: map<int, FieldDef>, entries: seq<Entry>): Result<Fields, string>
  {
    if entries == [] then Success(NoFields)
    else
      match ResolveAll(defs, entries[..|entries| - 1])
      case Failure(err) => Failure(err)
      case Success(acc) => Apply(defs, acc, entries[|entries| - 1])
  }

  /** process_custom_fields(custom_fields_map, detailed_doc); `entries` is
      None when the document has no "custom_fields" key. */
  method ProcessCustomFields(defs: map<int, FieldDef>, entries: Option<seq<Entry>>) returns (r: Result<Fields, string>)
    ensures entries.None? ==> r == Success(NoFields)
    ensures entries.Some? ==> r == ResolveAll(defs, entries.value)
  {
    var cells: Dict<string, Cell> := [];
    var currency: seq<string> := [];
    if entries.Some? {
      var list := entries.value;
      for i := 0 to |list|
        invariant ResolveAll(defs, list[..i]) == Success(Fields(cells, currency))
      {
        StepApplies(defs, list, i, Fields(cells, currency));
        var entry := list[i];
        if Falsy(entry.field) {
          continue;
        }
        var info := Lookup(defs, entry.field.value);
        var value := ValueOf(entry);
        if info.dataType == "monetary" {
          cells := Put(cells, info.name, Amount(ParseCurrency(value)));
          var formatted := FormatCurrency(value);
          if formatted.Failure? {
            FailureSticks(defs, list, i + 1);
            return Failure(formatted.error);
          }
          cells := Put(cells, info.name + "_formatted", Money(formatted.value));
          currency := currency + [info.name];
        } else if info.dataType == "select" {
          cells := Put(cells, info.name, Raw(Text(SelectLabel(info.choices, value))));
        } else {
          cells := Put(cells, info.name, Raw(value));
        }
      }
      assert list[..|list|] == list;
    }
    return Success(Fields(cells, currency));
  }

  lemma StepApplies(defs: map<int, FieldDef>, entries: seq<Entry>, i: nat, acc: Fields)
    requires i < |entries|
    requires ResolveAll(defs, entries[..i]) == Success(acc)
    ensures ResolveAll(defs, entries[..i + 1]) == Apply(defs, acc, entries[i])
  {
    assert entries[..i + 1][..i] == entries[..i];
  }

  /** Once a prefix of the entries fails, the whole list fails the same way. */
  lemma {:induction false} FailureSticks(defs: map<int, FieldDef>, entries: seq<Entry>, n: nat)
    requires n <= |entries|
    requires ResolveAll(defs, entries[..n]).Failure?
    ensures ResolveAll(defs, entries) == ResolveAll(defs, entries[..n])
  {
    if n < |entries| {
      var init := entries[..|entries| - 1];
      assert init[..n] == entries[..n];
      FailureSticks(defs, init, n);
    } else {
      assert entries[..n] == entries;
    }
  }

  /** The keys one entry writes, in the order it writes them. */
  function Written(defs: map<int, FieldDef>, e: Entry): seq<string> {
    if Falsy(e.field) then []
    else if DefOf(defs, e).dataType == "monetary" then [DefOf(defs, e).name, DefOf(defs, e).name + "_formatted"]
    else [DefOf(defs, e).name]
  }

  function AllWritten(defs: map<int, FieldDef>, entries: seq<Entry>): seq<string> {
    if entries == [] then []
    else AllWritten(defs, entries[..|entries| - 1]) + Written(defs, entries[|entries| - 1])
  }

  /** The names of the monetary fields among the entries, in order, repeats kept. */
  function MonetaryNames(defs: map<int, FieldDef>, entries: seq<Entry>): seq<string> {
    if entries == [] then []
    else
      var e := entries[|entries| - 1];
      MonetaryNames(defs, entries[..|entries| - 1])
        + if !Falsy(e.field) && DefOf(defs, e).dataType == "monetary" then [DefOf(defs, e).name] else []
  }

  /** The entries with a truthy field id. */
  function Truthy(entries: seq<Entry>): (r: seq<Entry>)
    ensures forall e :: e in r ==> !Falsy(e.field)
  {
    if entries == [] then []
    else
      var e := entries[|entries| - 1];
      Truthy(entries[..|entries| - 1]) + if Falsy(e.field) then [] else [e]
  }

  /** The loop fails exactly when some entry is a monetary field holding an
      int, and then with format_currency's error. */
  lemma {:induction false} FailsIffIntMonetary(defs: map<int, FieldDef>, entries: seq<Entry>)
    ensures ResolveAll(defs, entries).Failure? <==> exists i :: 0 <= i < |entries| && Raises(defs, entries[i])
  {
    if entries != [] {
      var init := entries[..|entries| - 1];
      var last := entries[|entries| - 1];
      FailsIffIntMonetary(defs, init);
      assert forall i :: 0 <= i < |init| ==> init[i] == entries[i];
      if (exists i :: 0 <= i < |entries| && Raises(defs, entries[i])) && !(exists i :: 0 <= i < |init| && Raises(defs, init[i])) {
        assert Raises(defs, last);
      }
    }
  }

  /** The keys one step leaves: those it found, and those it writes. */
  lemma ApplyKeys(defs: map<int, FieldDef>, acc: Fields, e: Entry)
    requires Apply(defs, acc, e).Success?
    ensures DistinctKeys(acc.cells) ==> DistinctKeys(Apply(defs, acc, e).value.cells)
    ensures forall k :: k in Keys(Apply(defs, acc, e).value.cells) <==> k in Keys(acc.cells) || k in Written(defs, e)
  {
    if !Falsy(e.field) {
      var info := DefOf(defs, e);
      var v := ValueOf(e);
      var cells := Apply(defs, acc, e).value.cells;
      if info.dataType == "monetary" {
        var a := Amount(ParseCurrency(v));
        var b := Money(FormatCurrency(v).value);
        var once := Put(acc.cells, info.name, a);
        assert cells == Put(once, info.name + "_formatted", b);
        PutKeySet(acc.cells, info.name, a);
        PutKeySet(once, info.name + "_formatted", b);
        if DistinctKeys(acc.cells) {
          PutDistinct(acc.cells, info.name, a);
          PutDistinct(once, info.name + "_formatted", b);
        }
      } else {
        var a := if info.dataType == "select" then Raw(Text(SelectLabel(info.choices, v))) else Raw(v);
        assert cells == Put(acc.cells, info.name, a);
        PutKeySet(acc.cells, info.name, a);
        if DistinctKeys(acc.cells) {
          PutDistinct(acc.cells, info.name, a);
        }
      }
    }
  }

  /** One step adds the field's name to the monetary list when it is a
      monetary field, and leaves the list alone otherwise. */
  lemma ApplyCurrency(defs: map<int, FieldDef>, acc: Fields, e: Entry)
    requires Apply(defs, acc, e).Success?
    ensures Apply(defs, acc, e).value.currency ==
      acc.currency + if !Falsy(e.field) && DefOf(defs, e).dataType == "monetary" then [DefOf(defs, e).name] else []
  {
  }

  lemma ResolveSnoc(defs: map<int, FieldDef>, entries: seq<Entry>, e: Entry)
    ensures ResolveAll(defs, entries + [e]) ==
      if ResolveAll(defs, entries).Failure? then ResolveAll(defs, entries)
      else Apply(defs, ResolveAll(defs, entries).value, e)
  {
    assert (entries + [e])[..|entries|] == entries;
  }

  /** On success the keys of the dictionary are exactly the names the
      entries write (name, and name_formatted for monetary fields), each once. */
  lemma {:induction false} KeysAreWritten(defs: map<int, FieldDef>, entries: seq<Entry>)
    requires ResolveAll(defs, entries).Success?
    ensures DistinctKeys(ResolveAll(defs, entries).value.cells)
    ensures forall k :: k in Keys(ResolveAll(defs, entries).value.cells) <==> k in AllWritten(defs, entries)
  {
    if entries != [] {
      var init := entries[..|entries| - 1];
      var last := entries[|entries| - 1];
      assert entries == init + [last];
      ResolveSnoc(defs, init, last);
      KeysAreWritten(defs, init);
      ApplyKeys(defs, ResolveAll(defs, init).value, last);
    }
  }

  /** On success the monetary list names the monetary fields in entry order. */
  lemma {:induction false} CurrencyListIsMonetaryNames(defs: map<int, FieldDef>, entries: seq<Entry>)
    requires ResolveAll(defs, entries).Success?
    ensures ResolveAll(defs, entries).value.currency == MonetaryNames(defs, entries)
  {
    if entries != [] {
      CurrencyListIsMonetaryNames(defs, entries[..|entries| - 1]);
    }
  }

  /** Every monetary column has both its raw and its formatted key among the cells. */
  predicate MonetaryColumnsIn(f: Fields) {
    forall c :: c in f.currency ==> c in Keys(f.cells) && c + "_formatted" in Keys(f.cells)
  }

  /** Every monetary column has both its raw and its formatted key in the
      dictionary, whatever later entries write. */
  lemma {:induction false} CurrencyColumnsPresent(defs: map<int, FieldDef>, entries: seq<Entry>)
    requires ResolveAll(defs, entries).Success?
    ensures MonetaryColumnsIn(ResolveAll(defs, entries).value)
  {
    if entries != [] {
      var init := entries[..|entries| - 1];
      CurrencyColumnsPresent(defs, init);
      ApplyKeepsMonetaryColumns(defs, ResolveAll(defs, init).value, entries[|entries| - 1]);
    }
  }

  /** One step never loses a key, and a monetary step writes both keys of
      the column it adds. */
  lemma ApplyKeepsMonetaryColumns(defs: map<int, FieldDef>, acc: Fields, e: Entry)
    requires Apply(defs, acc, e).Success? && MonetaryColumnsIn(acc)
    ensures MonetaryColumnsIn(Apply(defs, acc, e).value)
  {
    ApplyKeys(defs, acc, e);
    ApplyCurrency(defs, acc, e);
  }

  lemma ApplyFalsy(defs: map<int, FieldDef>, acc: Fields, e: Entry)
    requires Falsy(e.field)
    ensures Apply(defs, acc, e) == Success(acc)
  {
  }

  /** Entries with a falsy id change nothing: dropping them all gives the same result. */
  lemma {:induction false} FalsyEntriesIgnored(defs: map<int, FieldDef>, entries: seq<Entry>)
    ensures ResolveAll(defs, Truthy(entries)) == ResolveAll(defs, entries)
  {
    if entries != [] {
      var init := entries[..|entries| - 1];
      var last := entries[|entries| - 1];
      assert entries == init + [last];
      FalsyEntriesIgnored(defs, init);
      ResolveSnoc(defs, init, last);
      if Falsy(last.field) {
        assert Truthy(entries) == Truthy(init);
        if ResolveAll(defs, init).Success? {
          ApplyFalsy(defs, ResolveAll(defs, init).value, last);
        }
      } else {
        assert Truthy(entries) == Truthy(init) + [last];
        ResolveSnoc(defs, Truthy(init), last);
      }
    }
  }

  /** The value stored under the last entry's name, by the field's type:
      the parsed amount for monetary (and the formatted one beside it), the
      option label or "Wert <value>" for select, the value itself otherwise. */
  lemma LastEntryDecides(defs: map<int, FieldDef>, entries: seq<Entry>, e: Entry)
    requires !Falsy(e.field)
    requires ResolveAll(defs, entries + [e]).Success?
    ensures var cells := ResolveAll(defs, entries + [e]).value.cells;
      var info := DefOf(defs, e);
      (info.dataType == "monetary" ==>
        Get(cells, info.name + "_formatted") == Some(Money(FormatCurrency(ValueOf(e)).value))
        && Get(cells, info.name) == Some(Amount(ParseCurrency(ValueOf(e)))))
      && (info.dataType == "select" ==> Get(cells, info.name) == Some(Raw(Text(SelectLabel(info.choices, ValueOf(e))))))
      && (info.dataType != "monetary" && info.dataType != "select" ==> Get(cells, info.name) == Some(Raw(ValueOf(e))))
  {
    assert (entries + [e])[..|entries|] == entries;
  }

  /** An entry whose id has no definition is stored as is under "Feld <id>". */
  lemma UnknownFieldPassesThrough(defs: map<int, FieldDef>, entries: seq<Entry>, id: int, v: Value)
    requires id != 0 && id !in defs
    requires ResolveAll(defs, entries).Success?
    ensures ResolveAll(defs, entries + [Entry(Some(id), Some(v))]).Success?
    ensures Get(ResolveAll(defs, entries + [Entry(Some(id), Some(v))]).value.cells, "Feld " + IntToString(id)) == Some(Raw(v))
  {
    assert (entries + [Entry(Some(id), Some(v))])[..|entries|] == entries;
  }
}
