/** The registry of filter variables behind the visualisation pages: an ordered
    table of variables, each either option-based (a multi- or single-select whose
    options carry `selected` and `default` flags) or value-based (an 'int', a 'str'
    or another scalar). Selections are written from a query string, a list or a
    comma-separated string, and are read back as lists or strings. */
module FilterVars {
  import opened Outcomes
  import opened Strings

  // ------------------------------------------------------------- data model

  /** The scalar held by a value-based variable. */
  datatype Scalar = IntValue(n: int) | StrValue(s: string)

  /** The `options` of a definition: a list of keys, or a dict from key to display
      name given in its iteration order. */
  datatype OptionsDef = OptionList(keys: seq<string>) | OptionDict(entries: seq<(string, string)>)

  /** A variable definition as handed to `add`. An option-based definition lists
      the initially selected and the default option keys (an absent list is empty);
      a value-based one may carry a default scalar and a `value` of its own, which
      `get` reads before any `set`. */
  datatype VarDef =
    | OptionVarDef(key: string, name: string, vtype: string, options: OptionsDef,
                   selected: seq<string>, defaults: seq<string>)
    | ValueVarDef(key: string, name: string, vtype: string, defaultValue: Option<Scalar>, value: Option<Scalar>)

  /** What `add` asserts of a definition: non-empty key, name and type. */
  predicate Admissible(d: VarDef) {
    d.key != "" && d.name != "" && d.vtype != ""
  }

  /** One option of an option-based variable, as `add` builds it. */
  datatype OptionRecord = OptionRecord(key: string, name: string, selected: bool, isDefault: bool)

  /** What `get` returns: the list of selected option keys (or names), the first
      of them, or the scalar of a value-based variable. */
  datatype Reading = Listed(items: seq<string>) | Single(item: string) | Plain(value: Scalar)

  /** The part of a stored variable that depends on its kind. A value-based
      variable has no `value` until `set` is called, unless its definition
      carried one. */
  datatype Body =
    | Choices(options: seq<OptionRecord>)
    | Valued(defaultValue: Option<Scalar>, value: Option<Scalar>)

  /** A stored variable. `selected` is the definition's list until
      `get_list`/`get_dict` overwrite it with the current reading. */
  datatype Var = Var(key: string, name: string, vtype: string, body: Body, selected: Option<Reading>)

  /** The `values` argument of `set`: None, a string, or a list of strings. */
  datatype Values = Absent | Text(text: string) | Items(items: seq<string>)

  /** The option property `get` collects. */
  datatype Prop = KeyProp | NameProp

  /** The exceptions the registry's operations raise: a KeyError for an unknown
      variable, for a value-based variable without a `value`, or for a missing default; a
      ValueError from `int`; an IndexError when the first selection of an empty
      selection is asked for. `NotAScalar` is this model's own answer to a list given
      to a value-based variable, which the code stores as it is unless the type is
      'int' (where `int` raises a TypeError). */
  datatype Error = UnknownKey | NoValue | NoDefault | NotAnInt | NoneSelected | NotAScalar

  /** The contents of the registry: the keys in insertion order, and the variables. */
  datatype State = State(order: seq<string>, vars: map<string, Var>)

  ghost predicate WellFormed(st: State) {
    (forall i, j :: 0 <= i < j < |st.order| ==> st.order[i] != st.order[j])
    && (forall k :: k in st.vars <==> k in st.order)
    && (forall k :: k in st.vars ==> st.vars[k].key == k)
  }

  /** Replacing a variable by one with the same key keeps the state well formed. */
  lemma ReplaceKeepsWellFormed(st: State, key: string, v: Var)
    requires WellFormed(st) && key in st.vars && v.key == key
    ensures WellFormed(State(st.order, st.vars[key := v]))
  {
  }

  /** A prefix one element longer. */
  lemma TakeOneMore<T>(xs: seq<T>, i: nat)
    requires i < |xs|
    ensures xs[..i + 1] == xs[..i] + [xs[i]]
  {
  }

  // ------------------------------------------------------------------ names

  /** The display name of an option given as a bare key: title-cased, underscores
      turned into spaces, surrounding whitespace removed. */
  function NameFromKey(key: string): string {
    Strip(ReplaceChar(Title(key), '_', ' '))
  }

  /** The name has no underscore, no whitespace at either end, and is no longer
      than the key. */
  lemma NameFromKeySpec(key: string)
    ensures var r := NameFromKey(key);
            '_' !in r && (r != [] ==> !IsSpace(r[0]) && !IsSpace(r[|r| - 1])) && |r| <= |key|
  {
    var spaced := ReplaceChar(Title(key), '_', ' ');
    assert '_' !in spaced;
    StripKeepsAbsent(spaced, '_');
  }

  /** `get_name_from_key('foo_bar')` is 'Foo Bar'. */
  lemma NameFromKeyExample(key: string)
    requires key == "foo_bar"
    ensures NameFromKey(key) == "Foo Bar"
  {
    var t := Title(key);
    assert key[0] == 'f' && key[1] == 'o' && key[2] == 'o' && key[3] == '_';
    assert key[4] == 'b' && key[5] == 'a' && key[6] == 'r';
    assert t[0] == 'F' && t[1] == 'o' && t[2] == 'o' && t[3] == '_';
    assert t[4] == 'B' && t[5] == 'a' && t[6] == 'r';
    assert t == "Foo_Bar";
    var spaced := ReplaceChar(t, '_', ' ');
    assert spaced == "Foo Bar";
    StripUnchanged(spaced);
  }

  // -------------------------------------------------------------------- add

  function OptionKeys(o: OptionsDef): seq<string> {
    match o
    case OptionList(keys) => keys
    case OptionDict(entries) => seq(|entries|, i requires 0 <= i < |entries| => entries[i].0)
  }

  /** The record `add` builds for the `i`-th option key. */
  function MakeOption(o: OptionsDef, i: nat, selected: seq<string>, defaults: seq<string>): OptionRecord
    requires i < |OptionKeys(o)|
  {
    var key := OptionKeys(o)[i];
    OptionRecord(key, if o.OptionDict? then o.entries[i].1 else NameFromKey(key),
                 key in selected, key in defaults)
  }

  function OptionRecords(o: OptionsDef, selected: seq<string>, defaults: seq<string>): (r: seq<OptionRecord>)
    ensures |r| == |OptionKeys(o)|
  {
    seq(|OptionKeys(o)|, i requires 0 <= i < |OptionKeys(o)| => MakeOption(o, i, selected, defaults))
  }

  /** The variable `add` stores for a definition. */
  function Fresh(d: VarDef): Var {
    match d
    case OptionVarDef(key, name, vtype, options, selected, defaults) =>
      Var(key, name, vtype, Choices(OptionRecords(options, selected, defaults)), Some(Listed(selected)))
    case ValueVarDef(key, name, vtype, defaultValue, value) =>
      Var(key, name, vtype, Valued(defaultValue, value), None)
  }

  /** The registry after `add(d)`: stored under its key, the key appended only
      when it is new. */
  function Added(st: State, d: VarDef): State {
    State(if d.key in st.vars then st.order else st.order + [d.key], st.vars[d.key := Fresh(d)])
  }

  function AddedAll(st: State, defs: seq<VarDef>): State
    decreases |defs|
  {
    if defs == [] then st else AddedAll(Added(st, defs[0]), defs[1..])
  }

  lemma AddKeepsWellFormed(st: State, d: VarDef)
    requires WellFormed(st)
    ensures WellFormed(Added(st, d))
    ensures d.key in st.vars ==> Added(st, d).order == st.order
    ensures d.key !in st.vars ==> Added(st, d).order == st.order + [d.key]
    ensures forall k :: k in st.vars && k != d.key ==> Added(st, d).vars[k] == st.vars[k]
  {
  }

  /** After `add`, `get_all_options` gives one record per option key, in the
      definition's order: named from the dict or from the key, selected and default
      exactly when the definition's lists name the key. A value-based variable has
      no options, and the other variables keep theirs. */
  lemma AddedOptions(st: State, d: VarDef)
    ensures d.OptionVarDef? ==>
              var opts := GetAllOptions(Added(st, d), d.key);
              |opts| == |OptionKeys(d.options)|
              && forall i :: 0 <= i < |opts| ==>
                   opts[i].key == OptionKeys(d.options)[i]
                   && opts[i].name == (if d.options.OptionDict? then d.options.entries[i].1 else NameFromKey(opts[i].key))
                   && (opts[i].selected <==> opts[i].key in d.selected)
                   && (opts[i].isDefault <==> opts[i].key in d.defaults)
    ensures d.ValueVarDef? ==> GetAllOptions(Added(st, d), d.key) == []
    ensures forall k :: k != d.key ==> GetAllOptions(Added(st, d), k) == GetAllOptions(st, k)
  {
  }

  /** A value-based variable keeps its default and its definition's own `value`
      after `add`. Without one, reading it before any `set` raises a KeyError; with
      one, `get` reads it back (a string as it is for a type other than 'int'). */
  lemma AddedValueVar(st: State, d: VarDef, first: bool, prop: Prop)
    requires d.ValueVarDef?
    ensures Added(st, d).vars[d.key].body == Valued(d.defaultValue, d.value)
    ensures d.value.None? ==> GetIn(Added(st, d), d.key, first, prop) == Err(NoValue)
    ensures d.value.Some? && d.value.value.StrValue? && d.vtype != "int" ==>
              GetIn(Added(st, d), d.key, first, prop) == Ok(Plain(d.value.value))
  {
  }

  /** The keys a list of definitions names. */
  function DefKeys(defs: seq<VarDef>): set<string> {
    if defs == [] then {} else {defs[0].key} + DefKeys(defs[1..])
  }

  /** Adding definitions one after another keeps the registry well formed and
      leaves exactly the old keys and the newly named ones. */
  lemma {:induction false} AddedAllWellFormed(st: State, defs: seq<VarDef>)
    requires WellFormed(st)
    ensures WellFormed(AddedAll(st, defs))
    ensures AddedAll(st, defs).vars.Keys == st.vars.Keys + DefKeys(defs)
    decreases |defs|
  {
    if defs != [] {
      AddKeepsWellFormed(st, defs[0]);
      AddedAllWellFormed(Added(st, defs[0]), defs[1..]);
    }
  }

  // ------------------------------------------------------------------- get

  function Project(o: OptionRecord, prop: Prop): string {
    if prop == KeyProp then o.key else o.name
  }

  /** The chosen property of the selected options, in option order. */
  function SelectedItems(opts: seq<OptionRecord>, prop: Prop): seq<string> {
    if opts == [] then []
    else (if opts[0].selected then [Project(opts[0], prop)] else []) + SelectedItems(opts[1..], prop)
  }

  /** Python's `str(x)`. */
  function Render(x: Scalar): string {
    match x
    case IntValue(n) => IntToString(n)
    case StrValue(s) => s
  }

  /** Python's `int(x)`. */
  function ToInt(x: Scalar): Option<int> {
    match x
    case IntValue(n) => Some(n)
    case StrValue(s) => ParseInt(s)
  }

  /** `get(key, first, prop)` on one variable. */
  function Get(v: Var, first: bool, prop: Prop): Result<Reading, Error> {
    match v.body
    case Choices(options) =>
      var items := SelectedItems(options, prop);
      if !first then Ok(Listed(items))
      else if items == [] then Err(NoneSelected)
      else Ok(Single(items[0]))
    case Valued(_, value) =>
      if value.None? then Err(NoValue)
      else if v.vtype == "int" then
        (match ToInt(value.value)
         case None => Err(NotAnInt)
         case Some(n) => Ok(Plain(IntValue(n))))
      else if v.vtype == "str" then Ok(Plain(StrValue(Render(value.value))))
      else Ok(Plain(value.value))
  }

  function GetIn(st: State, key: string, first: bool, prop: Prop): Result<Reading, Error> {
    if key !in st.vars then Err(UnknownKey) else Get(st.vars[key], first, prop)
  }

  /** `get_str(key, first)` on one variable: a list reading joined with commas,
      anything else rendered as a string. */
  function GetStr(v: Var, first: bool): Result<string, Error> {
    match Get(v, first, KeyProp)
    case Err(e) => Err(e)
    case Ok(Listed(items)) => Ok(Join(items, ','))
    case Ok(Single(item)) => Ok(item)
    case Ok(Plain(x)) => Ok(Render(x))
  }

  function GetStrIn(st: State, key: string, first: bool): Result<string, Error> {
    if key !in st.vars then Err(UnknownKey) else GetStr(st.vars[key], first)
  }

  /** `get_all_options(key)`: the options of the variable, or none when the key is
      unknown or the variable is value-based. */
  function GetAllOptions(st: State, key: string): seq<OptionRecord> {
    if key in st.vars && st.vars[key].body.Choices? then st.vars[key].body.options else []
  }

  function AllKeys(opts: seq<OptionRecord>): seq<string> {
    if opts == [] then [] else [opts[0].key] + AllKeys(opts[1..])
  }

  function DefaultKeys(opts: seq<OptionRecord>): seq<string> {
    if opts == [] then [] else (if opts[0].isDefault then [opts[0].key] else []) + DefaultKeys(opts[1..])
  }

  /** The keys that are among `chosen`, in their own order. */
  function KeysAmong(keys: seq<string>, chosen: seq<string>): seq<string> {
    if keys == [] then [] else (if keys[0] in chosen then [keys[0]] else []) + KeysAmong(keys[1..], chosen)
  }

  /** The selected items keep the options' order: those of a concatenation are
      the concatenation of those of its parts. */
  lemma {:induction false} SelectedItemsAppend(a: seq<OptionRecord>, b: seq<OptionRecord>, prop: Prop)
    ensures SelectedItems(a + b, prop) == SelectedItems(a, prop) + SelectedItems(b, prop)
  {
    if a == [] {
      assert a + b == b;
    } else {
      assert (a + b)[0] == a[0];
      assert (a + b)[1..] == a[1..] + b;
      SelectedItemsAppend(a[1..], b, prop);
    }
  }

  /** A key is read back exactly when some option with that key is selected. */
  lemma {:induction false} SelectedItemsMembership(opts: seq<OptionRecord>, x: string)
    ensures x in SelectedItems(opts, KeyProp) <==> exists i :: 0 <= i < |opts| && opts[i].selected && opts[i].key == x
  {
    if opts != [] {
      SelectedItemsMembership(opts[1..], x);
      if exists i :: 0 <= i < |opts| && opts[i].selected && opts[i].key == x {
        var i :| 0 <= i < |opts| && opts[i].selected && opts[i].key == x;
        if i > 0 { assert opts[1..][i - 1] == opts[i]; }
      }
      if exists i :: 0 <= i < |opts[1..]| && opts[1..][i].selected && opts[1..][i].key == x {
        var i :| 0 <= i < |opts[1..]| && opts[1..][i].selected && opts[1..][i].key == x;
        assert opts[i + 1] == opts[1..][i];
      }
    }
  }

  /** Nothing is read back exactly when no option is selected. */
  lemma {:induction false} SelectedItemsEmpty(opts: seq<OptionRecord>, prop: Prop)
    ensures SelectedItems(opts, prop) == [] <==> forall i :: 0 <= i < |opts| ==> !opts[i].selected
  {
    if opts != [] {
      SelectedItemsEmpty(opts[1..], prop);
      if forall i :: 0 <= i < |opts[1..]| ==> !opts[1..][i].selected {
        if !opts[0].selected {
          forall i | 0 <= i < |opts| ensures !opts[i].selected {
            if i > 0 { assert opts[i] == opts[1..][i - 1]; }
          }
        }
      }
    }
  }

  /** `get(key)` on an option-based variable lists the selected keys in option
      order; with `first` it gives the first of them and fails when there is none. */
  lemma GetOptionVar(v: Var, prop: Prop)
    requires v.body.Choices?
    ensures Get(v, false, prop) == Ok(Listed(SelectedItems(v.body.options, prop)))
    ensures Get(v, true, prop).Err? <==> forall i :: 0 <= i < |v.body.options| ==> !v.body.options[i].selected
    ensures Get(v, true, prop).Ok? ==> Get(v, true, prop) == Ok(Single(SelectedItems(v.body.options, prop)[0]))
  {
    SelectedItemsEmpty(v.body.options, prop);
  }

  /** Right after `add`, `get` on an option-based variable lists those option keys
      that the definition's `selected` list names, in option order. */
  lemma {:induction false} AddThenGet(st: State, d: VarDef)
    requires d.OptionVarDef?
    ensures GetIn(Added(st, d), d.key, false, KeyProp)
            == Ok(Listed(KeysAmong(OptionKeys(d.options), d.selected)))
  {
    var recs := OptionRecords(d.options, d.selected, d.defaults);
    RecordsSelectedKeys(d.options, d.selected, d.defaults, 0);
    assert recs[0..] == recs;
    assert OptionKeys(d.options)[0..] == OptionKeys(d.options);
  }

  lemma {:induction false} RecordsSelectedKeys(o: OptionsDef, selected: seq<string>, defaults: seq<string>, i: nat)
    requires i <= |OptionKeys(o)|
    ensures SelectedItems(OptionRecords(o, selected, defaults)[i..], KeyProp)
            == KeysAmong(OptionKeys(o)[i..], selected)
    decreases |OptionKeys(o)| - i
  {
    var recs := OptionRecords(o, selected, defaults);
    var keys := OptionKeys(o);
    if i < |keys| {
      RecordsSelectedKeys(o, selected, defaults, i + 1);
      assert recs[i..][1..] == recs[i + 1..];
      assert keys[i..][1..] == keys[i + 1..];
      assert recs[i..][0] == MakeOption(o, i, selected, defaults);
    } else {
      assert recs[i..] == [];
      assert keys[i..] == [];
    }
  }

  // ------------------------------------------------------------------- set

  function StripAll(xs: seq<string>): (r: seq<string>)
    ensures |r| == |xs|
  {
    seq(|xs|, i requires 0 <= i < |xs| => Strip(xs[i]))
  }

  /** The list `set` matches options against: a string is split at commas, every
      entry is stripped; None means "reset to defaults". */
  function Tokens(values: Values): Option<seq<string>> {
    match values
    case Absent => None
    case Text(s) => Some(StripAll(Split(s, ',')))
    case Items(xs) => Some(if xs != [] then StripAll(xs) else xs)
  }

  /** One option after `set`. */
  function Reselect(o: OptionRecord, tokens: Option<seq<string>>): OptionRecord {
    if tokens.None? then o.(selected := o.isDefault)
    else o.(selected := "all" in tokens.value || o.key in tokens.value)
  }

  function Reselected(opts: seq<OptionRecord>, tokens: Option<seq<string>>): (r: seq<OptionRecord>)
    ensures |r| == |opts|
  {
    seq(|opts|, i requires 0 <= i < |opts| => Reselect(opts[i], tokens))
  }

  /** The scalar `set` starts from: the default for None or the empty string. */
  function RawValue(values: Values, defaultValue: Option<Scalar>): Result<Scalar, Error> {
    if values == Absent || values == Text("") then
      (if defaultValue.Some? then Ok(defaultValue.value) else Err(NoDefault))
    else if values.Text? then Ok(StrValue(values.text))
    else Err(NotAScalar)
  }

  /** `set(key, values)` on one variable. */
  function SetVar(v: Var, values: Values): Result<Var, Error> {
    match v.body
    case Choices(options) => Ok(v.(body := Choices(Reselected(options, Tokens(values)))))
    case Valued(defaultValue, _) =>
      var raw := RawValue(values, defaultValue);
      if raw.Err? then Err(raw.error)
      else if v.vtype == "int" then
        (match ToInt(raw.value)
         case None => Err(NotAnInt)
         case Some(n) => Ok(v.(body := Valued(defaultValue, Some(IntValue(n))))))
      else Ok(v.(body := Valued(defaultValue, Some(raw.value))))
  }

  function SetIn(st: State, key: string, values: Values): Result<State, Error> {
    if key !in st.vars then Err(UnknownKey)
    else match SetVar(st.vars[key], values)
      case Err(e) => Err(e)
      case Ok(v) => Ok(State(st.order, st.vars[key := v]))
  }

  lemma {:induction false} ReselectedSelects(opts: seq<OptionRecord>, tokens: seq<string>)
    ensures SelectedItems(Reselected(opts, Some(tokens)), KeyProp)
            == if "all" in tokens then AllKeys(opts) else KeysAmong(AllKeys(opts), tokens)
  {
    if opts != [] {
      ReselectedSelects(opts[1..], tokens);
      assert Reselected(opts, Some(tokens))[1..] == Reselected(opts[1..], Some(tokens));
      var keys := AllKeys(opts);
      assert keys[0] == opts[0].key && keys[1..] == AllKeys(opts[1..]);
    }
  }

  lemma {:induction false} ReselectedDefaults(opts: seq<OptionRecord>)
    ensures SelectedItems(Reselected(opts, None), KeyProp) == DefaultKeys(opts)
  {
    if opts != [] {
      ReselectedDefaults(opts[1..]);
      assert Reselected(opts, None)[1..] == Reselected(opts[1..], None);
    }
  }

  /** `set(key, None)` on an option-based variable: afterwards `get(key)` lists
      exactly the default options, in option order. */
  lemma SetNoneRestoresDefaults(st: State, key: string)
    requires key in st.vars && st.vars[key].body.Choices?
    ensures SetIn(st, key, Absent).Ok?
    ensures GetIn(SetIn(st, key, Absent).value, key, false, KeyProp)
            == Ok(Listed(DefaultKeys(st.vars[key].body.options)))
  {
    ReselectedDefaults(st.vars[key].body.options);
  }

  /** `set(key, values)` with a string or a list on an option-based variable:
      afterwards `get(key)` lists every option if 'all' is among the stripped
      entries, and otherwise the options whose key is among them. */
  lemma SetValuesSelects(st: State, key: string, values: Values)
    requires key in st.vars && st.vars[key].body.Choices?
    requires values != Absent
    ensures SetIn(st, key, values).Ok?
    ensures var tokens := if values.Text? then StripAll(Split(values.text, ',')) else StripAll(values.items);
            GetIn(SetIn(st, key, values).value, key, false, KeyProp)
            == Ok(Listed(if "all" in tokens then AllKeys(st.vars[key].body.options)
                         else KeysAmong(AllKeys(st.vars[key].body.options), tokens)))
  {
    ReselectedSelects(st.vars[key].body.options, Tokens(values).value);
  }

  /** `set(key, [])` deselects every option. */
  lemma SetEmptyListDeselects(st: State, key: string)
    requires key in st.vars && st.vars[key].body.Choices?
    ensures SetIn(st, key, Items([])).Ok?
    ensures GetIn(SetIn(st, key, Items([])).value, key, false, KeyProp) == Ok(Listed([]))
  {
    var opts := st.vars[key].body.options;
    SelectedItemsEmpty(Reselected(opts, Some([])), KeyProp);
  }

  /** `set` changes nothing but var `key`'s selection: the order, every other
      variable, and the keys, names and defaults of `key`'s options stay. */
  lemma SetChangesOnlySelection(st: State, key: string, values: Values)
    requires SetIn(st, key, values).Ok?
    ensures var st' := SetIn(st, key, values).value;
            st'.order == st.order && st'.vars.Keys == st.vars.Keys
            && (forall k :: k in st.vars && k != key ==> st'.vars[k] == st.vars[k])
            && st'.vars[key].key == st.vars[key].key && st'.vars[key].name == st.vars[key].name
            && st'.vars[key].vtype == st.vars[key].vtype && st'.vars[key].selected == st.vars[key].selected
            && |GetAllOptions(st', key)| == |GetAllOptions(st, key)|
            && (forall i :: 0 <= i < |GetAllOptions(st, key)| ==>
                  GetAllOptions(st', key)[i] == GetAllOptions(st, key)[i].(selected := GetAllOptions(st', key)[i].selected))
  {
  }

  /** `set` on a value-based variable with None or '' stores its default, turned into
      an int for type 'int', and `get` then reads that value back. */
  lemma SetBlankStoresDefault(st: State, key: string, values: Values)
    requires key in st.vars && st.vars[key].body.Valued?
    requires values == Absent || values == Text("")
    ensures var v := st.vars[key];
            match v.body.defaultValue
            case None => SetIn(st, key, values) == Err(NoDefault)
            case Some(x) =>
              if v.vtype == "int" then
                (match ToInt(x)
                 case None => SetIn(st, key, values) == Err(NotAnInt)
                 case Some(n) => SetIn(st, key, values).Ok?
                                 && SetIn(st, key, values).value.vars[key].body.value == Some(IntValue(n))
                                 && GetIn(SetIn(st, key, values).value, key, false, KeyProp) == Ok(Plain(IntValue(n))))
              else
                SetIn(st, key, values).Ok?
                && SetIn(st, key, values).value.vars[key].body.value == Some(x)
                && GetIn(SetIn(st, key, values).value, key, false, KeyProp)
                   == Ok(Plain(if v.vtype == "str" then StrValue(Render(x)) else x))
  {
  }

  // ------------------------------------------------------------ round trip

  /** An option key that survives being written to and read from a query string. */
  predicate QueryableKey(k: string) {
    k != "" && Strip(k) == k && ',' !in k && k != "all"
  }

  /** Options that share a key share their `selected` flag. */
  predicate SameKeySameSelection(opts: seq<OptionRecord>) {
    forall i, j :: 0 <= i < |opts| && 0 <= j < |opts| && opts[i].key == opts[j].key
                   ==> opts[i].selected == opts[j].selected
  }

  /** Options that share a key share both flags: what `add` builds and `set` keeps,
      since both decide the flags of an option by its key alone. */
  predicate KeyConsistent(opts: seq<OptionRecord>) {
    forall i, j :: 0 <= i < |opts| && 0 <= j < |opts| && opts[i].key == opts[j].key
                   ==> opts[i].selected == opts[j].selected && opts[i].isDefault == opts[j].isDefault
  }

  /** The options `add` builds are key-consistent, even from a list that repeats a key. */
  lemma FreshKeyConsistent(d: VarDef)
    requires d.OptionVarDef?
    ensures Fresh(d).body.Choices? && KeyConsistent(Fresh(d).body.options)
  {
    var opts := Fresh(d).body.options;
    forall i, j | 0 <= i < |opts| && 0 <= j < |opts| && opts[i].key == opts[j].key
      ensures opts[i].selected == opts[j].selected && opts[i].isDefault == opts[j].isDefault
    {
      assert opts[i] == MakeOption(d.options, i, d.selected, d.defaults);
      assert opts[j] == MakeOption(d.options, j, d.selected, d.defaults);
    }
  }

  /** `set` keeps the options key-consistent, whatever it is given. */
  lemma SetVarKeyConsistent(v: Var, values: Values)
    requires v.body.Choices? && KeyConsistent(v.body.options)
    ensures SetVar(v, values).Ok? && SetVar(v, values).value.body.Choices?
    ensures KeyConsistent(SetVar(v, values).value.body.options)
  {
    var opts := v.body.options;
    var tokens := Tokens(values);
    var opts' := Reselected(opts, tokens);
    forall i, j | 0 <= i < |opts'| && 0 <= j < |opts'| && opts'[i].key == opts'[j].key
      ensures opts'[i].selected == opts'[j].selected && opts'[i].isDefault == opts'[j].isDefault
    {
      assert opts'[i] == Reselect(opts[i], tokens) && opts'[j] == Reselect(opts[j], tokens);
    }
  }

  /** Every option-based variable `add` builds round-trips when its keys do, a
      list that repeats a key included. */
  lemma FreshRoundTrips(d: VarDef)
    requires d.OptionVarDef?
    requires forall i :: 0 <= i < |OptionKeys(d.options)| ==> QueryableKey(OptionKeys(d.options)[i])
    ensures RoundTrips(Fresh(d))
  {
    FreshKeyConsistent(d);
    var opts := Fresh(d).body.options;
    forall i | 0 <= i < |opts| ensures QueryableKey(opts[i].key) {
      assert opts[i] == MakeOption(d.options, i, d.selected, d.defaults);
    }
  }

  /** The variables for which `set(key, get_str(key))` leaves everything as it was:
      option-based ones whose keys survive a query string and whose options sharing
      a key share their selection; value-based ones holding an int of type 'int',
      or a non-empty string of any other type. */
  predicate RoundTrips(v: Var) {
    match v.body
    case Choices(opts) =>
      SameKeySameSelection(opts)
      && (forall i :: 0 <= i < |opts| ==> QueryableKey(opts[i].key))
    case Valued(defaultValue, value) =>
      value.Some? &&
      ((v.vtype == "int" && value.value.IntValue?)
       || (v.vtype != "int" && value.value.StrValue? && (value.value.s != "" || defaultValue == value)))
  }

  lemma {:induction false} SelectedItemsAreKeys(opts: seq<OptionRecord>, x: string)
    requires x in SelectedItems(opts, KeyProp)
    ensures exists i :: 0 <= i < |opts| && opts[i].key == x && opts[i].selected
  {
    SelectedItemsMembership(opts, x);
  }

  /** Every selected key is one of the option keys, so it is queryable too. */
  lemma SelectedKeysQueryable(opts: seq<OptionRecord>)
    requires forall i :: 0 <= i < |opts| ==> QueryableKey(opts[i].key)
    ensures forall k :: 0 <= k < |SelectedItems(opts, KeyProp)| ==> QueryableKey(SelectedItems(opts, KeyProp)[k])
  {
    var items := SelectedItems(opts, KeyProp);
    forall k | 0 <= k < |items| ensures QueryableKey(items[k]) {
      assert items[k] in items;
      SelectedItemsAreKeys(opts, items[k]);
    }
  }

  /** Stripping entries that are already stripped changes nothing. */
  lemma StripAllUnchanged(xs: seq<string>)
    requires forall k :: 0 <= k < |xs| ==> Strip(xs[k]) == xs[k]
    ensures StripAll(xs) == xs
  {
  }

  /** The tokens `set` reads from a joined selection are the selection itself,
      or the single empty token when nothing is selected. */
  lemma SelectionTokens(opts: seq<OptionRecord>)
    requires forall i :: 0 <= i < |opts| ==> QueryableKey(opts[i].key)
    ensures var items := SelectedItems(opts, KeyProp);
            StripAll(Split(Join(items, ','), ',')) == if items == [] then [[]] else items
  {
    SelectedKeysQueryable(opts);
    JoinedTokens(SelectedItems(opts, KeyProp));
  }

  /** Queryable keys joined with commas split and strip back into themselves. */
  lemma JoinedTokens(items: seq<string>)
    requires forall k :: 0 <= k < |items| ==> QueryableKey(items[k])
    ensures StripAll(Split(Join(items, ','), ',')) == if items == [] then [[]] else items
  {
    if items != [] {
      SplitJoin(items, ',');
      StripAllUnchanged(items);
    }
  }

  /** Re-selecting from tokens that are exactly the selected keys keeps every
      option, when none of them is 'all'. */
  lemma ReselectFromOwnKeys(opts: seq<OptionRecord>, tokens: seq<string>)
    requires "all" !in tokens
    requires forall i :: 0 <= i < |opts| ==> (opts[i].key in tokens <==> opts[i].selected)
    ensures Reselected(opts, Some(tokens)) == opts
  {
    forall i | 0 <= i < |opts| ensures Reselected(opts, Some(tokens))[i] == opts[i] {
      assert Reselect(opts[i], Some(tokens)).selected == opts[i].selected;
    }
  }

  /** The tokens of the joined selection tell selected options from the others:
      with nothing selected the one empty token matches no key; otherwise they are
      the selected keys, none of them 'all'. */
  lemma SelectionTokensMatch(opts: seq<OptionRecord>)
    requires SameKeySameSelection(opts)
    requires forall i :: 0 <= i < |opts| ==> QueryableKey(opts[i].key)
    ensures var tokens := StripAll(Split(Join(SelectedItems(opts, KeyProp), ','), ','));
            "all" !in tokens
            && forall i :: 0 <= i < |opts| ==> (opts[i].key in tokens <==> opts[i].selected)
  {
    SelectionTokens(opts);
    if SelectedItems(opts, KeyProp) == [] {
      NothingSelectedMatches(opts);
    } else {
      SelectedKeysMatch(opts);
    }
  }

  lemma NothingSelectedMatches(opts: seq<OptionRecord>)
    requires forall i :: 0 <= i < |opts| ==> QueryableKey(opts[i].key)
    requires SelectedItems(opts, KeyProp) == []
    ensures forall i :: 0 <= i < |opts| ==> (opts[i].key in [[]] <==> opts[i].selected)
  {
    SelectedItemsEmpty(opts, KeyProp);
    forall i | 0 <= i < |opts| ensures opts[i].key !in [[]] {
      assert QueryableKey(opts[i].key);
    }
  }

  lemma SelectedKeysMatch(opts: seq<OptionRecord>)
    requires SameKeySameSelection(opts)
    requires forall i :: 0 <= i < |opts| ==> QueryableKey(opts[i].key)
    ensures var items := SelectedItems(opts, KeyProp);
            "all" !in items && forall i :: 0 <= i < |opts| ==> (opts[i].key in items <==> opts[i].selected)
  {
    var items := SelectedItems(opts, KeyProp);
    forall k | 0 <= k < |items| ensures items[k] != "all" {
      assert items[k] in items;
      SelectedItemsAreKeys(opts, items[k]);
    }
    forall i | 0 <= i < |opts| ensures (opts[i].key in items <==> opts[i].selected) {
      SelectedItemsMembership(opts, opts[i].key);
      if opts[i].key in items {
        var j :| 0 <= j < |opts| && opts[j].selected && opts[j].key == opts[i].key;
        assert opts[i].selected == opts[j].selected;
      }
    }
  }

  /** With queryable keys, and options sharing a key sharing their selection,
      re-selecting from the joined selection keeps every option. */
  lemma ReselectFromSelection(opts: seq<OptionRecord>)
    requires SameKeySameSelection(opts)
    requires forall i :: 0 <= i < |opts| ==> QueryableKey(opts[i].key)
    ensures Reselected(opts, Some(StripAll(Split(Join(SelectedItems(opts, KeyProp), ','), ',')))) == opts
  {
    SelectionTokensMatch(opts);
    ReselectFromOwnKeys(opts, StripAll(Split(Join(SelectedItems(opts, KeyProp), ','), ',')));
  }

  /** Reading an option selection as a string and writing that string back leaves
      the variable as it was, when the keys are non-empty, stripped, free of commas
      and not 'all', and options sharing a key share their selection. */
  lemma OptionsRoundTrip(v: Var)
    requires v.body.Choices? && RoundTrips(v)
    ensures GetStr(v, false).Ok?
    ensures SetVar(v, Text(GetStr(v, false).value)) == Ok(v)
  {
    var opts := v.body.options;
    var s := Join(SelectedItems(opts, KeyProp), ',');
    assert Get(v, false, KeyProp) == Ok(Listed(SelectedItems(opts, KeyProp)));
    assert GetStr(v, false) == Ok(s);
    ReselectFromSelection(opts);
    assert SetVar(v, Text(s)) == Ok(v.(body := Choices(opts)));
  }

  /** The same for a value-based variable: an int of type 'int' round-trips
      through its decimal string, a non-empty string of any other type (such as
      'str' or 'range') through itself. */
  lemma ValueRoundTrip(v: Var)
    requires v.body.Valued? && RoundTrips(v)
    ensures GetStr(v, false).Ok?
    ensures SetVar(v, Text(GetStr(v, false).value)) == Ok(v)
  {
    var x := v.body.value.value;
    if v.vtype == "int" {
      var t := IntToString(x.n);
      assert Get(v, false, KeyProp) == Ok(Plain(x));
      assert GetStr(v, false) == Ok(t);
      ParseIntRoundTrip(x.n);
      assert t != "";
      assert RawValue(Text(t), v.body.defaultValue) == Ok(StrValue(t));
      assert SetVar(v, Text(t)) == Ok(v.(body := Valued(v.body.defaultValue, Some(IntValue(x.n)))));
    } else {
      assert Get(v, false, KeyProp) == Ok(Plain(x));
      assert GetStr(v, false) == Ok(x.s);
      if x.s == "" {
        assert RawValue(Text(x.s), v.body.defaultValue) == Ok(v.body.defaultValue.value);
      } else {
        assert RawValue(Text(x.s), v.body.defaultValue) == Ok(x);
      }
    }
  }

  // ------------------------------------------- reset_vars_from_request

  /** What `request.GET.get(key, None)` yields. */
  function Lookup(query: map<string, string>, key: string): Values {
    if key in query then Text(query[key]) else Absent
  }

  /** `set(k, request.GET.get(k))` for each key in turn; the first error stops the
      loop, leaving the variables set so far changed. */
  function ResetKeys(st: State, keys: seq<string>, query: map<string, string>): (State, Outcome<Error>)
    decreases |keys|
  {
    if keys == [] then (st, Pass)
    else match SetIn(st, keys[0], Lookup(query, keys[0]))
      case Err(e) => (st, Fail(e))
      case Ok(st') => ResetKeys(st', keys[1..], query)
  }

  /** One key further: the `set` of `keys[i]`, then the rest of the keys. */
  lemma ResetKeysStep(st: State, keys: seq<string>, i: nat, query: map<string, string>)
    requires i < |keys|
    ensures var step := SetIn(st, keys[i], Lookup(query, keys[i]));
            ResetKeys(st, keys[i..], query) ==
            if step.Err? then (st, Fail(step.error)) else ResetKeys(step.value, keys[i + 1..], query)
  {
    assert keys[i..][0] == keys[i] && keys[i..][1..] == keys[i + 1..];
  }

  /** Resetting sets every variable independently: it succeeds exactly when every
      single `set` does, and then each listed variable is the one `set` gives and
      every other is untouched. */
  lemma {:induction false} ResetKeysEffect(st: State, keys: seq<string>, query: map<string, string>)
    requires forall i, j :: 0 <= i < j < |keys| ==> keys[i] != keys[j]
    requires forall i :: 0 <= i < |keys| ==> keys[i] in st.vars
    ensures var (st', out) := ResetKeys(st, keys, query);
            st'.order == st.order && st'.vars.Keys == st.vars.Keys
            && (out == Pass <==> forall i :: 0 <= i < |keys| ==> SetVar(st.vars[keys[i]], Lookup(query, keys[i])).Ok?)
            && (out == Pass ==>
                  (forall i :: 0 <= i < |keys| ==>
                     st'.vars[keys[i]] == SetVar(st.vars[keys[i]], Lookup(query, keys[i])).value)
                  && (forall k :: k in st.vars && k !in keys ==> st'.vars[k] == st.vars[k]))
    decreases |keys|
  {
    if keys != [] {
      var k := keys[0];
      match SetVar(st.vars[k], Lookup(query, k))
      case Err(e) =>
      case Ok(v) =>
        var st1 := State(st.order, st.vars[k := v]);
        assert SetIn(st, k, Lookup(query, k)) == Ok(st1);
        forall i | 0 <= i < |keys[1..]| ensures keys[1..][i] in st1.vars && keys[1..][i] != k {
          assert keys[1..][i] == keys[i + 1];
        }
        ResetKeysEffect(st1, keys[1..], query);
        forall i | 0 <= i < |keys[1..]| ensures st1.vars[keys[1..][i]] == st.vars[keys[1..][i]] {
          assert keys[1..][i] == keys[i + 1];
        }
        var (st', out) := ResetKeys(st1, keys[1..], query);
        if out == Pass {
          forall i | 0 <= i < |keys| ensures st'.vars[keys[i]] == SetVar(st.vars[keys[i]], Lookup(query, keys[i])).value {
            if i > 0 { assert keys[i] == keys[1..][i - 1]; } else { assert k !in keys[1..]; }
          }
        }
        if forall i :: 0 <= i < |keys| ==> SetVar(st.vars[keys[i]], Lookup(query, keys[i])).Ok? {
          forall i | 0 <= i < |keys[1..]| ensures SetVar(st1.vars[keys[1..][i]], Lookup(query, keys[1..][i])).Ok? {
            assert keys[1..][i] == keys[i + 1];
          }
        }
        if out == Pass {
          forall i | 0 <= i < |keys| ensures SetVar(st.vars[keys[i]], Lookup(query, keys[i])).Ok? {
            if i > 0 { assert keys[i] == keys[1..][i - 1]; }
          }
        }
    }
  }

  /** After `reset_vars_from_request`, every option-based variable whose key is not
      in the query has exactly its default options selected. */
  lemma ResetRestoresAbsentDefaults(st: State, query: map<string, string>, key: string)
    requires WellFormed(st)
    requires ResetKeys(st, st.order, query).1 == Pass
    requires key in st.vars && key !in query && st.vars[key].body.Choices?
    ensures GetIn(ResetKeys(st, st.order, query).0, key, false, KeyProp)
            == Ok(Listed(DefaultKeys(st.vars[key].body.options)))
  {
    ResetKeysEffect(st, st.order, query);
    var i :| 0 <= i < |st.order| && st.order[i] == key;
    ReselectedDefaults(st.vars[key].body.options);
  }

  /** The query a registry's selections give when each variable is written as
      `get_str(key)`. */
  function QueryOf(st: State): map<string, string> {
    map k | k in st.vars && GetStr(st.vars[k], false).Ok? :: GetStr(st.vars[k], false).value
  }

  lemma {:induction false} ResetKeysAtOwnQuery(st: State, keys: seq<string>)
    requires forall i :: 0 <= i < |keys| ==> keys[i] in st.vars && RoundTrips(st.vars[keys[i]])
    ensures ResetKeys(st, keys, QueryOf(st)) == (st, Pass)
    decreases |keys|
  {
    if keys != [] {
      var v := st.vars[keys[0]];
      if v.body.Choices? { OptionsRoundTrip(v); } else { ValueRoundTrip(v); }
      assert Lookup(QueryOf(st), keys[0]) == Text(GetStr(v, false).value);
      assert st.vars[keys[0] := v] == st.vars;
      assert SetIn(st, keys[0], Lookup(QueryOf(st), keys[0])) == Ok(st);
      ResetKeysAtOwnQuery(st, keys[1..]);
    }
  }

  /** Values can be exchanged with a query string: resetting a registry from the
      query its own `get_str` readings give changes nothing, when every variable
      round-trips. */
  lemma QueryRoundTrip(st: State)
    requires WellFormed(st)
    requires forall k :: k in st.vars ==> RoundTrips(st.vars[k])
    ensures ResetKeys(st, st.order, QueryOf(st)) == (st, Pass)
  {
    ResetKeysAtOwnQuery(st, st.order);
  }

  // ------------------------------------------------------ get_query_string

  /** The `key=value` pieces of `get_query_string`, `quote` standing for
      `urllib.parse.quote(_, ',')`. */
  function QueryPieces(st: State, keys: seq<string>, quote: string -> string): Result<seq<string>, Error> {
    if keys == [] then Ok([])
    else match GetStrIn(st, keys[0], false)
      case Err(e) => Err(e)
      case Ok(s) =>
        match QueryPieces(st, keys[1..], quote)
        case Err(e) => Err(e)
        case Ok(rest) => Ok([quote(keys[0]) + "=" + quote(s)] + rest)
  }

  function GetQueryString(st: State, quote: string -> string): Result<string, Error> {
    match QueryPieces(st, st.order, quote)
    case Err(e) => Err(e)
    case Ok(pieces) => Ok(Join(pieces, '&'))
  }

  lemma {:induction false} QueryPiecesShape(st: State, keys: seq<string>, quote: string -> string)
    requires QueryPieces(st, keys, quote).Ok?
    ensures var ps := QueryPieces(st, keys, quote).value;
            |ps| == |keys|
            && forall i :: 0 <= i < |keys| ==>
                 GetStrIn(st, keys[i], false).Ok?
                 && ps[i] == quote(keys[i]) + "=" + quote(GetStrIn(st, keys[i], false).value)
    decreases |keys|
  {
    if keys != [] {
      QueryPiecesShape(st, keys[1..], quote);
      var ps := QueryPieces(st, keys, quote).value;
      forall i | 0 <= i < |keys| ensures GetStrIn(st, keys[i], false).Ok?
          && ps[i] == quote(keys[i]) + "=" + quote(GetStrIn(st, keys[i], false).value) {
        if i > 0 { assert keys[i] == keys[1..][i - 1]; }
      }
    }
  }

  /** When the quoting never yields '&' or '=', the query string splits back into
      one `key=value` piece per variable, in insertion order, and each piece into
      the quoted key and the quoted `get_str` reading. */
  lemma QueryStringSplits(st: State, quote: string -> string)
    requires forall x :: '&' !in quote(x) && '=' !in quote(x)
    requires |st.order| >= 1
    requires GetQueryString(st, quote).Ok?
    ensures var ps := Split(GetQueryString(st, quote).value, '&');
            |ps| == |st.order|
            && forall i :: 0 <= i < |ps| ==>
                 GetStrIn(st, st.order[i], false).Ok?
                 && Split(ps[i], '=') == [quote(st.order[i]), quote(GetStrIn(st, st.order[i], false).value)]
  {
    var pieces := QueryPieces(st, st.order, quote).value;
    QueryPiecesShape(st, st.order, quote);
    forall i | 0 <= i < |pieces| ensures '&' !in pieces[i] {
      assert '&' !in quote(st.order[i]);
    }
    SplitJoin(pieces, '&');
    forall i | 0 <= i < |pieces|
      ensures GetStrIn(st, st.order[i], false).Ok?
      ensures Split(pieces[i], '=') == [quote(st.order[i]), quote(GetStrIn(st, st.order[i], false).value)] {
      var a := quote(st.order[i]);
      var b := quote(GetStrIn(st, st.order[i], false).value);
      assert pieces[i] == a + ['='] + b;
      SplitAtSeparator(a, b, '=');
      SplitWithoutSeparator(b, '=');
    }
  }

  // ----------------------------------------------------- _set_selected

  /** `var['selected'] = get(var['key'], var['type'] == 'single')` for one key. */
  function SelectOne(st: State, key: string): Result<State, Error> {
    if key !in st.vars then Err(UnknownKey)
    else
      var v := st.vars[key];
      match Get(v, v.vtype == "single", KeyProp)
      case Err(e) => Err(e)
      case Ok(x) => Ok(State(st.order, st.vars[key := v.(selected := Some(x))]))
  }

  /** The same for each key in turn; the first error stops the loop. */
  function SelectKeys(st: State, keys: seq<string>): (State, Outcome<Error>)
    decreases |keys|
  {
    if keys == [] then (st, Pass)
    else match SelectOne(st, keys[0])
      case Err(e) => (st, Fail(e))
      case Ok(st') => SelectKeys(st', keys[1..])
  }

  /** One key further: the reading of `keys[i]` stored, then the rest of the keys. */
  lemma SelectKeysStep(st: State, keys: seq<string>, i: nat)
    requires i < |keys|
    ensures var step := SelectOne(st, keys[i]);
            SelectKeys(st, keys[i..]) ==
            if step.Err? then (st, Fail(step.error)) else SelectKeys(step.value, keys[i + 1..])
  {
    assert keys[i..][0] == keys[i] && keys[i..][1..] == keys[i + 1..];
  }

  /** The selections stored succeed exactly when every variable can be read, and
      then each variable's `selected` is its reading, nothing else changing. */
  lemma {:induction false} SelectKeysEffect(st: State, keys: seq<string>)
    requires forall i, j :: 0 <= i < j < |keys| ==> keys[i] != keys[j]
    requires forall i :: 0 <= i < |keys| ==> keys[i] in st.vars
    ensures var (st', out) := SelectKeys(st, keys);
            st'.order == st.order && st'.vars.Keys == st.vars.Keys
            && (out == Pass <==> forall i :: 0 <= i < |keys| ==>
                  Get(st.vars[keys[i]], st.vars[keys[i]].vtype == "single", KeyProp).Ok?)
            && (out == Pass ==>
                  (forall i :: 0 <= i < |keys| ==>
                     var v := st.vars[keys[i]];
                     st'.vars[keys[i]] == v.(selected := Some(Get(v, v.vtype == "single", KeyProp).value)))
                  && (forall k :: k in st.vars && k !in keys ==> st'.vars[k] == st.vars[k]))
    decreases |keys|
  {
    if keys != [] {
      var k := keys[0];
      var v := st.vars[k];
      match Get(v, v.vtype == "single", KeyProp)
      case Err(e) =>
      case Ok(x) =>
        var st1 := State(st.order, st.vars[k := v.(selected := Some(x))]);
        assert SelectOne(st, k) == Ok(st1);
        forall i | 0 <= i < |keys[1..]| ensures keys[1..][i] in st1.vars && keys[1..][i] != k {
          assert keys[1..][i] == keys[i + 1];
        }
        SelectKeysEffect(st1, keys[1..]);
        forall i | 0 <= i < |keys[1..]| ensures st1.vars[keys[1..][i]] == st.vars[keys[1..][i]] {
          assert keys[1..][i] == keys[i + 1];
        }
        var (st', out) := SelectKeys(st1, keys[1..]);
        if out == Pass {
          forall i | 0 <= i < |keys| ensures
            st'.vars[keys[i]] == st.vars[keys[i]].(selected := Some(Get(st.vars[keys[i]], st.vars[keys[i]].vtype == "single", KeyProp).value)) {
            if i > 0 { assert keys[i] == keys[1..][i - 1]; } else { assert k !in keys[1..]; }
          }
          forall i | 0 <= i < |keys| ensures Get(st.vars[keys[i]], st.vars[keys[i]].vtype == "single", KeyProp).Ok? {
            if i > 0 { assert keys[i] == keys[1..][i - 1]; }
          }
        }
        if forall i :: 0 <= i < |keys| ==> Get(st.vars[keys[i]], st.vars[keys[i]].vtype == "single", KeyProp).Ok? {
          forall i | 0 <= i < |keys[1..]| ensures
            Get(st1.vars[keys[1..][i]], st1.vars[keys[1..][i]].vtype == "single", KeyProp).Ok? {
            assert keys[1..][i] == keys[i + 1];
          }
        }
    }
  }

  /** The variables in insertion order. */
  function InOrder(st: State): (r: seq<Var>)
    requires forall k :: k in st.order ==> k in st.vars
    ensures |r| == |st.order|
  {
    seq(|st.order|, i requires 0 <= i < |st.order| => st.vars[st.order[i]])
  }

  // ------------------------------------------------------------ the class

  /** The registry object; `order` and `vars` together are the ordered dict. */
  class ApiVars {
    var order: seq<string>
    var vars: map<string, Var>

    function Contents(): State
      reads this
    {
      State(order, vars)
    }

    ghost predicate Valid()
      reads this
    {
      WellFormed(Contents())
    }

    /** `__init__(vars)`: adds each definition in turn. */
    constructor (defs: seq<VarDef>)
      requires forall i :: 0 <= i < |defs| ==> Admissible(defs[i])
      ensures Valid()
      ensures Contents() == AddedAll(State([], map[]), defs)
    {
      order := [];
      vars := map[];
      new;
      var i := 0;
      while i < |defs|
        invariant 0 <= i <= |defs|
        invariant Valid()
        invariant AddedAll(State([], map[]), defs) == AddedAll(Contents(), defs[i..])
      {
        Add(defs[i]);
        assert defs[i..][1..] == defs[i + 1..];
        i := i + 1;
      }
    }

    /** `add(var)`: builds the option records and stores the variable under its key. */
    method Add(d: VarDef)
      requires Valid()
      requires Admissible(d)
      modifies this
      ensures Valid()
      ensures Contents() == Added(old(Contents()), d)
    {
      var v: Var;
      match d {
        case OptionVarDef(key, name, vtype, options, selected, defaults) =>
          var records := BuildOptions(options, selected, defaults);
          v := Var(key, name, vtype, Choices(records), Some(Listed(selected)));
        case ValueVarDef(key, name, vtype, defaultValue, value) =>
          v := Var(key, name, vtype, Valued(defaultValue, value), None);
      }
      AddKeepsWellFormed(Contents(), d);
      if d.key !in vars {
        order := order + [d.key];
      }
      vars := vars[d.key := v];
    }

    /** The loop of `add` that turns option keys into option records. */
    static method BuildOptions(options: OptionsDef, selected: seq<string>, defaults: seq<string>)
      returns (records: seq<OptionRecord>)
      ensures records == OptionRecords(options, selected, defaults)
    {
      ghost var all := OptionRecords(options, selected, defaults);
      var keys := OptionKeys(options);
      records := [];
      var i := 0;
      while i < |keys|
        invariant 0 <= i <= |keys|
        invariant records == all[..i]
      {
        var key := keys[i];
        var name := if options.OptionDict? then options.entries[i].1 else NameFromKey(key);
        var record := OptionRecord(key, name, key in selected, key in defaults);
        assert record == all[i];
        TakeOneMore(all, i);
        records := records + [record];
        i := i + 1;
      }
      assert all[..i] == all;
    }

    /** `set(key, values)`. */
    method Set(key: string, values: Values) returns (r: Outcome<Error>)
      requires Valid()
      modifies this
      ensures Valid()
      ensures match SetIn(old(Contents()), key, values)
              case Ok(st) => r == Pass && Contents() == st
              case Err(e) => r == Fail(e) && Contents() == old(Contents())
    {
      if key !in vars {
        return Fail(UnknownKey);
      }
      var v := vars[key];
      match v.body {
        case Choices(options) =>
          var tokens := Tokens(values);
          var opts := options;
          var i := 0;
          while i < |opts|
            invariant 0 <= i <= |opts| && |opts| == |options|
            invariant forall j :: 0 <= j < i ==> opts[j] == Reselect(options[j], tokens)
            invariant forall j :: i <= j < |opts| ==> opts[j] == options[j]
          {
            opts := opts[i := Reselect(opts[i], tokens)];
            i := i + 1;
          }
          assert opts == Reselected(options, tokens);
          ReplaceKeepsWellFormed(Contents(), key, v.(body := Choices(opts)));
          vars := vars[key := v.(body := Choices(opts))];
          r := Pass;
        case Valued(defaultValue, _) =>
          var raw := RawValue(values, defaultValue);
          if raw.Err? {
            return Fail(raw.error);
          }
          var value := raw.value;
          if v.vtype == "int" {
            var n := ToInt(value);
            if n.None? {
              return Fail(NotAnInt);
            }
            value := IntValue(n.value);
          }
          ReplaceKeepsWellFormed(Contents(), key, v.(body := Valued(defaultValue, Some(value))));
          vars := vars[key := v.(body := Valued(defaultValue, Some(value)))];
          r := Pass;
      }
    }

    /** `reset_vars_from_request(request)`, the request reduced to its query map. */
    method ResetVarsFromRequest(query: map<string, string>) returns (r: Outcome<Error>)
      requires Valid()
      modifies this
      ensures Valid()
      ensures (Contents(), r) == ResetKeys(old(Contents()), old(order), query)
    {
      var i := 0;
      while i < |order|
        invariant 0 <= i <= |order|
        invariant Valid() && order == old(order)
        invariant ResetKeys(old(Contents()), old(order), query) == ResetKeys(Contents(), order[i..], query)
      {
        ResetKeysStep(Contents(), order, i, query);
        var key := order[i];
        r := Set(key, Lookup(query, key));
        if r.Fail? {
          return;
        }
        i := i + 1;
      }
      r := Pass;
    }

    /** The body of the loop of `_set_selected()`, for one key. */
    method StoreSelection(key: string) returns (r: Outcome<Error>)
      requires Valid()
      modifies this
      ensures Valid()
      ensures match SelectOne(old(Contents()), key)
              case Ok(st) => r == Pass && Contents() == st
              case Err(e) => r == Fail(e) && Contents() == old(Contents())
    {
      if key !in vars {
        return Fail(UnknownKey);
      }
      var v := vars[key];
      var x := Get(v, v.vtype == "single", KeyProp);
      if x.Err? {
        return Fail(x.error);
      }
      ReplaceKeepsWellFormed(Contents(), key, v.(selected := Some(x.value)));
      vars := vars[key := v.(selected := Some(x.value))];
      r := Pass;
    }

    /** `_set_selected()`: stores each variable's current reading in its `selected`. */
    method StoreSelections() returns (r: Outcome<Error>)
      requires Valid()
      modifies this
      ensures Valid()
      ensures (Contents(), r) == SelectKeys(old(Contents()), old(order))
    {
      var i := 0;
      while i < |order|
        invariant 0 <= i <= |order|
        invariant Valid() && order == old(order)
        invariant SelectKeys(old(Contents()), old(order)) == SelectKeys(Contents(), order[i..])
      {
        SelectKeysStep(Contents(), order, i);
        r := StoreSelection(order[i]);
        if r.Fail? {
          return;
        }
        i := i + 1;
      }
      r := Pass;
    }

    /** `get_list()`: the variables in insertion order, with their selections stored. */
    method GetList() returns (r: Result<seq<Var>, Error>)
      requires Valid()
      modifies this
      ensures Valid()
      ensures (Contents(), if r.Ok? then Pass else Fail(r.error)) == SelectKeys(old(Contents()), old(order))
      ensures r.Ok? ==> r.value == InOrder(Contents())
    {
      var out := StoreSelections();
      if out.Fail? {
        return Err(out.error);
      }
      r := Ok(InOrder(Contents()));
    }

    /** `get_dict()`: the variables by key, with their selections stored; the
        dict keeps the insertion order, so it is returned with that order. */
    method GetDict() returns (r: Result<State, Error>)
      requires Valid()
      modifies this
      ensures Valid()
      ensures (Contents(), if r.Ok? then Pass else Fail(r.error)) == SelectKeys(old(Contents()), old(order))
      ensures r.Ok? ==> r.value == Contents()
    {
      var out := StoreSelections();
      if out.Fail? {
        return Err(out.error);
      }
      r := Ok(State(order, vars));
    }
  }
}
