# DRaL filter variables and ODS table scan, in Dafny

This project models two pieces of the DRaL web application.

**The filter-variable registry `API_Vars`** (`dral_wagtail/api_vars.py`). It is an
ordered table of the variables behind the visualisation pages. A variable is
either option-based or value-based:

- An option-based variable is a multi- or single-select. Each of its options
  carries a `selected` flag and a `default` flag.
- A value-based variable holds an `int`, a `str` or another scalar.

The registry turns definitions into stored variables (`add`). Selections are
written from a list, a comma-separated string, `'all'` or `None`, which means
"back to the defaults" (`set`, `reset_vars_from_request`). They are read back as
lists or strings (`get`, `get_str`, `get_query_string`), and stored under each
variable for the front end (`_set_selected`, `get_list`, `get_dict`).

**The first pass of the spreadsheet importer** (`Command.action_import` in
`dral_text/management/commands/drtext.py`). It runs in four steps:

1. It strips the namespace prefixes from an OpenDocument `content.xml`.
2. It parses the text.
3. It finds the table named `BENJY`.
4. It counts the logical columns of each row. A cell with
   `number-columns-repeated` counts once for every column it repeats over.

Layout:

- `outcomes.dfy`: `Option`, `Result` and `Outcome` (a raised Python exception is
  an `Err`/`Fail`).
- `strings.dfy`: the Python string operations the two pieces rely on. These are
  `str.split`, `str.join`, `str.strip` (over Python's whitespace set),
  `str.title`, `int(str)` and `str(int)`, each with its laws.
- `filter_vars.dfy`: module `FilterVars`. It holds two things:
  - The registry's contents as a value `State(order, vars)`, with the reading
    operations as functions and the writing operations as specification
    functions (`Added`, `SetIn`, `ResetKeys`, `SelectKeys`).
  - The class `ApiVars`, whose fields `order` and `vars` are the ordered dict.
    Its methods change those fields in loops, as the source does, and each one is
    proved to end in the state its specification function gives.
- `ods_scan.dfy`: module `OdsScan`. It holds the regex substitution as a function
  with its laws, an element-tree datatype, the table search, and the nested
  counting loops as methods proved against `RowWidth`/`RowWidths`.

The regular expression at `drtext.py:21` does not contain `fo`, so `fo:` is
kept (`OdsScan.FoNotStripped`).

## Model

| member | source | states |
|---|---|---|
| FilterVars.NameFromKeySpec | dral_wagtail/api_vars.py:155-157 | the display name built from a key has no `_`, no leading or trailing whitespace, and is no longer than the key |
| FilterVars.NameFromKeyExample | dral_wagtail/api_vars.py:155-157 | `get_name_from_key('foo_bar')` is `'Foo Bar'`: title case, underscores become spaces |
| FilterVars.NameFromKey | dral_wagtail/api_vars.py:155-157 | `get_name_from_key`: title case, `_` replaced by a space, then stripped; its laws are `NameFromKeySpec` and `NameFromKeyExample` |
| FilterVars.MakeOption | dral_wagtail/api_vars.py:32-38 | the record `add` builds for one option key: the dict's value or the name built from the key, and `selected`/`default` set exactly when the key is in the definition's lists; stated by `AddedOptions` |
| FilterVars.OptionRecords | dral_wagtail/api_vars.py:29-40 | one option record per option key |
| FilterVars.Fresh | dral_wagtail/api_vars.py:21-40 | the variable `add` stores for a definition: an option-based one gets its option records and keeps the definition's `selected` list; a value-based one keeps its default and the definition's own `value`, if it carries one; stated by `AddedOptions` and `AddedValueVar` |
| FilterVars.Added | dral_wagtail/api_vars.py:21-48 | `add` on the registry's contents: the variable is stored under its key, and a new key goes to the end of the order; stated by `AddKeepsWellFormed` |
| FilterVars.AddedOptions | dral_wagtail/api_vars.py:24-40 | after `add`, the options are the definition's keys in their iteration order; each name is the dict value, or the name built from the key for a list; `selected`/`default` hold exactly when the key is in the definition's `selected`/`default` list; a value-based variable has no options and other variables keep theirs |
| FilterVars.AddedValueVar | dral_wagtail/api_vars.py:21-48 | after `add`, a value-based variable keeps its definition's default and its definition's own `value`. When the definition carries no `value`, `get` on it (with or without `first`, for any `prop`) raises the KeyError `NoValue` until `set` is called; when it carries a string and the type is not `'int'`, `get` reads that string back right away |
| FilterVars.AddKeepsWellFormed | dral_wagtail/api_vars.py:42-48 | a new key is appended to the order, and re-adding an existing key keeps the order unchanged; every other variable is unchanged; the registry stays well formed (distinct keys, order and table agree, each variable stored under its own key) |
| FilterVars.AddedAllWellFormed | dral_wagtail/api_vars.py:15-19 | adding a list of definitions keeps the registry well formed and leaves exactly the old keys plus the keys the definitions name |
| FilterVars.AddThenGet | dral_wagtail/api_vars.py:24-38 | right after `add`, `get` on an option-based variable lists the option keys named by the definition's `selected` list, in option order |
| FilterVars.Get | dral_wagtail/api_vars.py:124-144 | `get(key, first, prop)` on one variable: the selected options' `prop` in option order, the first of them with `first` (an IndexError when none), or the stored value cast by `int`/`str` for those types; stated by `GetOptionVar`, `SetBlankStoresDefault` and the `SelectedItems` lemmas |
| FilterVars.GetIn | dral_wagtail/api_vars.py:124-126 | `get` on the registry: a KeyError for an unknown key, otherwise `Get` of the variable |
| FilterVars.GetStr | dral_wagtail/api_vars.py:146-152 | `get_str`: the reading of `get`, a list joined with `,`, a scalar rendered with `str`; stated by `SelectionTokens` and the round-trip lemmas |
| FilterVars.GetStrIn | dral_wagtail/api_vars.py:146-147 | `get_str` on the registry: a KeyError for an unknown key, otherwise `GetStr` of the variable |
| FilterVars.GetAllOptions | dral_wagtail/api_vars.py:119-122 | `get_all_options`: the options of an option-based variable, and the empty list for an unknown key or a value-based variable |
| FilterVars.SelectedItemsAppend | dral_wagtail/api_vars.py:128-133 | the selected items of a concatenation of options are the concatenation of the selected items of each part (option order is kept) |
| FilterVars.SelectedItemsMembership | dral_wagtail/api_vars.py:128-133 | a key is read back exactly when some option with that key is selected |
| FilterVars.SelectedItemsAreKeys | dral_wagtail/api_vars.py:128-133 | every key read back belongs to a selected option |
| FilterVars.SelectedItemsEmpty | dral_wagtail/api_vars.py:128-136 | nothing is read back exactly when no option is selected |
| FilterVars.GetOptionVar | dral_wagtail/api_vars.py:124-136 | `get` on an option-based variable lists the selected keys (or names) in option order; with `first` it gives the first of them, and fails exactly when none is selected |
| FilterVars.ReselectedSelects | dral_wagtail/api_vars.py:105-110 | after re-selection from a token list, the selected keys are all keys if `'all'` is a token, and otherwise the keys that are tokens, in option order |
| FilterVars.ReselectedDefaults | dral_wagtail/api_vars.py:105-108 | after re-selection with `None`, the selected keys are exactly the default keys |
| FilterVars.SetNoneRestoresDefaults | dral_wagtail/api_vars.py:98-108 | `set(k, None)` on an option-based variable succeeds, and `get(k)` then lists exactly its default options |
| FilterVars.SetValuesSelects | dral_wagtail/api_vars.py:98-110 | `set(k, values)` with a string (split at `,`) or a list, every entry stripped: `get(k)` then lists every option if `'all'` is an entry, and otherwise the options whose key is an entry |
| FilterVars.SetEmptyListDeselects | dral_wagtail/api_vars.py:102-110 | `set(k, [])` deselects every option |
| FilterVars.SetChangesOnlySelection | dral_wagtail/api_vars.py:88-117 | a successful `set(k, …)` keeps the order, the key set, every other variable, and variable `k`'s key, name, type and stored selection; its options change only in their `selected` flags |
| FilterVars.Tokens | dral_wagtail/api_vars.py:99-103 | the list `set` matches against: a string split at `,`, a non-empty list as it is, every entry stripped; `None` means "back to defaults"; stated by `JoinedTokens` and `SetValuesSelects` |
| FilterVars.Reselect | dral_wagtail/api_vars.py:105-110 | one option after `set`: `selected` becomes `default` for `None`, otherwise whether `'all'` or the option's key is a token; stated by `ReselectedSelects` and `ReselectedDefaults` |
| FilterVars.Reselected | dral_wagtail/api_vars.py:105-110 | `Reselect` applied to every option, in order and one record per option |
| FilterVars.RawValue | dral_wagtail/api_vars.py:112-114 | the scalar a value-based `set` starts from: the default for `None` or `''` (a KeyError without one), the string otherwise |
| FilterVars.SetVar | dral_wagtail/api_vars.py:98-117 | `set` on one variable: re-selection of the options, or the raw value converted by `int` for type `'int'`; stated by `SetNoneRestoresDefaults`, `SetValuesSelects`, `SetBlankStoresDefault` and `SetVarKeyConsistent` |
| FilterVars.SetIn | dral_wagtail/api_vars.py:88-117 | `set` on the registry: a KeyError for an unknown key, otherwise the variable replaced by `SetVar`'s and everything else kept; stated by `SetChangesOnlySelection` |
| FilterVars.SetBlankStoresDefault | dral_wagtail/api_vars.py:111-117 | `set` with `None` or `''` on a value-based variable stores its default, converted by `int` for type `'int'`; it fails when there is no default or the conversion fails; `get` then reads the stored value back, cast to `str` for type `'str'` |
| FilterVars.JoinedTokens | dral_wagtail/api_vars.py:99-103 | keys without `,` and without surrounding whitespace, joined with `,` then split and stripped, give the keys back, or the single empty token when there are none |
| FilterVars.FreshKeyConsistent | dral_wagtail/api_vars.py:31-38 | the options `add` builds give equal `selected` and equal `default` flags to equal keys, even when the option list repeats a key |
| FilterVars.SetVarKeyConsistent | dral_wagtail/api_vars.py:105-110 | `set` on an option-based variable always succeeds and keeps equal keys with equal flags, whatever it is given |
| FilterVars.FreshRoundTrips | dral_wagtail/api_vars.py:5-8 | every option-based variable `add` builds from keys that are non-empty, stripped, comma-free and not `'all'` round-trips through `get_str`/`set`, a repeated key included |
| FilterVars.SelectedKeysQueryable | dral_wagtail/api_vars.py:128-133 | every selected key is the key of some option, so it shares the options' restrictions |
| FilterVars.SelectionTokens | dral_wagtail/api_vars.py:146-152 | the comma-joined selection, split and stripped again, gives the selection back, or the single empty token when nothing is selected |
| FilterVars.ReselectFromOwnKeys | dral_wagtail/api_vars.py:105-110 | re-selecting from tokens that are exactly the selected keys (no `'all'` among them, and options sharing a key share their selection) changes no option |
| FilterVars.NothingSelectedMatches | dral_wagtail/api_vars.py:105-110 | with nothing selected, the single empty token matches no (non-empty) key |
| FilterVars.SelectedKeysMatch | dral_wagtail/api_vars.py:128-133 | when options sharing a key share their selection, the selected keys do not contain `'all'`, and an option's key is among them exactly when the option is selected |
| FilterVars.SelectionTokensMatch | dral_wagtail/api_vars.py:99-110 | when options sharing a key share their selection, the tokens read from `get_str` contain no `'all'` and contain an option's key exactly when it is selected |
| FilterVars.ReselectFromSelection | dral_wagtail/api_vars.py:99-110 | with non-empty, stripped, comma-free keys other than `'all'`, repeated keys included as long as options sharing a key share their selection, re-selecting from the `get_str` string keeps every option as it was |
| FilterVars.OptionsRoundTrip | dral_wagtail/api_vars.py:5-8 | for an option-based variable whose keys are non-empty, stripped, comma-free and not `'all'`, and whose options sharing a key share their selection, `get_str` succeeds and `set(k, get_str(k))` leaves the variable exactly as it was |
| FilterVars.ValueRoundTrip | dral_wagtail/api_vars.py:111-117 | `set(k, get_str(k))` leaves a value-based variable unchanged: an `int` of type `'int'` through its decimal string, and a string of any other type (`'str'`, `'range'`, …) through itself, where an empty string round-trips when the default is that same empty string (`set(k, '')` stores the default) |
| FilterVars.ResetKeysEffect | dral_wagtail/api_vars.py:81-86 | resetting from a query succeeds exactly when each variable's own `set` does; each variable is then what `set` gives it from the query, and order and keys are unchanged |
| FilterVars.Lookup | dral_wagtail/api_vars.py:84 | `request.GET.get(key, None)`: the query's string for the key, or `None` |
| FilterVars.ResetKeys | dral_wagtail/api_vars.py:81-86 | `set(k, request.GET.get(k))` for each key in turn, the first error stopping the rest; stated by `ResetKeysEffect` and `ResetRestoresAbsentDefaults` |
| FilterVars.ResetRestoresAbsentDefaults | dral_wagtail/api_vars.py:83-86 | after a successful `reset_vars_from_request`, an option-based variable absent from the query has exactly its default options selected |
| FilterVars.ResetKeysAtOwnQuery | dral_wagtail/api_vars.py:81-86 | resetting any list of round-tripping variables (option-based ones with repeated keys and value-based ones of any type included) from the registry's own query changes nothing and succeeds |
| FilterVars.QueryRoundTrip | dral_wagtail/api_vars.py:5-8 | resetting a registry from the query its own `get_str` readings give changes nothing and succeeds, when every variable round-trips |
| FilterVars.QueryPiecesShape | dral_wagtail/api_vars.py:57-68 | the query string has one `quote(key)=quote(get_str(key))` piece per variable, in insertion order |
| FilterVars.QueryStringSplits | dral_wagtail/api_vars.py:57-68 | when quoting never yields `&` or `=`, the query string splits at `&` into one piece per variable in insertion order, and each piece splits at `=` into the quoted key and the quoted reading |
| FilterVars.QueryPieces | dral_wagtail/api_vars.py:60-66 | the pieces `quote(key)=quote(get_str(key))`, one per key in turn, failing with the first failing `get_str`; stated by `QueryPiecesShape` |
| FilterVars.GetQueryString | dral_wagtail/api_vars.py:57-68 | `get_query_string`: the pieces over the insertion order joined with `&`; stated by `QueryStringSplits` |
| FilterVars.SelectKeysEffect | dral_wagtail/api_vars.py:50-55 | storing selections succeeds exactly when every variable can be read (with `first` for type `'single'`); each variable's `selected` is then its reading, and nothing else changes |
| FilterVars.SelectOne | dral_wagtail/api_vars.py:55 | one step of `_set_selected`: a variable's `selected` becomes its reading, with `first` for type `'single'`; a failing reading is the error |
| FilterVars.SelectKeys | dral_wagtail/api_vars.py:50-55 | `SelectOne` for each key in turn, the first error stopping the rest; stated by `SelectKeysEffect` |
| FilterVars.InOrder | dral_wagtail/api_vars.py:78 | one variable per key of the insertion order |
| FilterVars.ApiVars.constructor | dral_wagtail/api_vars.py:15-19 | the new registry is the empty one with each definition added in turn |
| FilterVars.ApiVars.Add | dral_wagtail/api_vars.py:21-48 | the registry afterwards is `Added(old, d)`, and stays well formed |
| FilterVars.ApiVars.BuildOptions | dral_wagtail/api_vars.py:29-40 | the option-building loop yields exactly the records `OptionRecords` specifies |
| FilterVars.ApiVars.Set | dral_wagtail/api_vars.py:88-117 | on success the registry is `SetIn(old, k, values)`; on error it is unchanged and the error is the one `SetIn` gives |
| FilterVars.ApiVars.ResetVarsFromRequest | dral_wagtail/api_vars.py:81-86 | the new registry and the outcome are those of `ResetKeys` over the insertion order, including the variables already set when an error stops the loop |
| FilterVars.ApiVars.StoreSelection | dral_wagtail/api_vars.py:55 | one step of the loop: on success the registry is `SelectOne(old, k)`, storing the reading of `k` in its `selected`; on error it is unchanged |
| FilterVars.ApiVars.StoreSelections | dral_wagtail/api_vars.py:50-55 | the new registry and outcome are those of `SelectKeys` over the insertion order |
| FilterVars.ApiVars.GetList | dral_wagtail/api_vars.py:75-79 | stores the selections, then returns the variables in insertion order |
| FilterVars.ApiVars.GetDict | dral_wagtail/api_vars.py:70-73 | stores the selections, then returns the variables by key, in insertion order (`dict(self.vars)` keeps the order) |
| Strings.Strip | dral_wagtail/api_vars.py:103 | `str.strip()`: the result neither starts nor ends with whitespace and is no longer than the input |
| Strings.StripSlice | dral_wagtail/api_vars.py:103 | the stripped text is a contiguous part of the input, and only whitespace lies outside it |
| Strings.StripUnchanged | dral_wagtail/api_vars.py:103 | stripping changes nothing exactly when the text is empty or its ends are not whitespace |
| Strings.StripIdempotent | dral_wagtail/api_vars.py:103 | stripping twice is stripping once |
| Strings.Split | dral_wagtail/api_vars.py:100 | `str.split(sep)` gives at least one piece, and no piece contains the separator |
| Strings.SplitWithoutSeparator | dral_wagtail/api_vars.py:100 | a text without the separator splits into itself alone |
| Strings.SplitAtSeparator | dral_wagtail/api_vars.py:100 | splitting `a + sep + b` (with no separator in `a`) gives `a` followed by the pieces of `b` |
| Strings.SplitJoin | dral_wagtail/api_vars.py:150 | splitting a join of separator-free pieces gives the pieces back |
| Strings.JoinSplit | dral_wagtail/api_vars.py:150 | joining the pieces of a split gives the text back |
| Strings.Join | dral_wagtail/api_vars.py:150 | `sep.join(xs)`: the pieces with one separator between neighbours; stated by `SplitJoin` and `JoinSplit` (with `&` at `api_vars.py:60`) |
| Strings.ReplaceChar | dral_wagtail/api_vars.py:157 | `re.sub(r'[_]', r' ', …)` as a character replacement: every `_` becomes a space and nothing else changes; the length is kept |
| Strings.Title | dral_wagtail/api_vars.py:157 | `str.title()`: each letter is upper-cased when it starts a run of letters and lower-cased otherwise; the length is kept |
| Strings.TitleKeepsNonLetters | dral_wagtail/api_vars.py:157 | a character that is not a letter (such as `_`) occurs in the title-cased text exactly when it occurs in the input |
| Strings.DigitsRoundTrip | dral_wagtail/api_vars.py:140 | writing a natural number in decimal and reading it back gives the number |
| Strings.IntToString | dral_wagtail/api_vars.py:142 | `str(i)` for an integer: a `-` for a negative one, then the decimal digits; stated by `DigitsRoundTrip` and `ParseIntRoundTrip` |
| Strings.ParseInt | dral_wagtail/api_vars.py:116 | `int(s)`: surrounding whitespace, an optional sign and at least one decimal digit, anything else a ValueError; stated by `ParseDigits`, `ParseNegatedDigits` and `ParseIntRoundTrip` |
| Strings.ParseDigits | dral_wagtail/api_vars.py:116 | `int()` of a non-empty string of digits is its decimal value |
| Strings.ParseNegatedDigits | dral_wagtail/api_vars.py:116 | `int()` of `-` followed by digits is the negated value |
| Strings.ParseIntRoundTrip | dral_wagtail/api_vars.py:116 | `int(str(i)) == i` for every integer |
| OdsScan.MatchAtSpec | dral_text/management/commands/drtext.py:21 | the alternative that matches at a position is one of the five prefixes and starts the text; none matches when no prefix starts it |
| OdsScan.PrefixFree | dral_text/management/commands/drtext.py:21 | no prefix of the alternation is a prefix of another |
| OdsScan.MatchIsUnique | dral_text/management/commands/drtext.py:21 | at most one prefix matches at a position, whatever the order of the alternatives |
| OdsScan.StripNamespaces | dral_text/management/commands/drtext.py:21 | the substitution never lengthens the text |
| OdsScan.StripUnchangedIff | dral_text/management/commands/drtext.py:21 | the text is unchanged exactly when no prefix occurs in it, and strictly shorter otherwise |
| OdsScan.Decompose | dral_text/management/commands/drtext.py:21 | every text reads as a leftmost, non-overlapping sequence of kept characters and matched prefixes |
| OdsScan.StripKeepsLeftmostReading | dral_text/management/commands/drtext.py:21 | for any leftmost reading, the substitution's output is exactly the kept characters: each match is removed and nothing else changes |
| OdsScan.StripIsKeptText | dral_text/management/commands/drtext.py:21 | the output is the kept text of the input's own leftmost reading |
| OdsScan.RemovalNotRescanned | dral_text/management/commands/drtext.py:21 | a prefix formed only once `table:` is removed is not removed in turn: `t` + `table:` + a prefix-free text keeps the `t` and the text |
| OdsScan.SinglePass | dral_text/management/commands/drtext.py:21 | a single pass only: `ttable:able:` becomes `table:` (`OdsScan.AbleSpellsTable`), which a second pass would remove, so the substitution is not idempotent |
| OdsScan.AbleSpellsTable | dral_text/management/commands/drtext.py:21 | the characters of the example spell `table:` and `ttable:able:` |
| OdsScan.FoNotStripped | dral_text/management/commands/drtext.py:21 | `fo:` is not stripped: `fo:` followed by any text keeps `fo:` and strips only the text after it |
| OdsScan.NoOccurrenceUnchanged | dral_text/management/commands/drtext.py:21 | text in which no prefix occurs comes out unchanged |
| OdsScan.OccurrenceShortens | dral_text/management/commands/drtext.py:21 | text in which some prefix occurs comes out strictly shorter |
| OdsScan.StripKeeps | dral_text/management/commands/drtext.py:21 | where no prefix matches, the first character is kept and scanning goes on after it |
| OdsScan.StripDrops | dral_text/management/commands/drtext.py:21 | where a prefix matches, it is removed and scanning resumes right after it |
| OdsScan.KeepChar | dral_text/management/commands/drtext.py:21 | a character at which no prefix matches is kept in front of the stripped rest |
| OdsScan.KeepUpTo | dral_text/management/commands/drtext.py:21 | where no prefix matches at any of the first `k` positions, those `k` characters are kept and only the rest is stripped |
| OdsScan.DropThenUnchanged | dral_text/management/commands/drtext.py:21 | a prefix followed by prefix-free text leaves exactly that text |
| OdsScan.FindInIsFirstInPreorder | dral_text/management/commands/drtext.py:24 | the search returns the first BENJY table in document order |
| OdsScan.FindBenjyTableSpec | dral_text/management/commands/drtext.py:24 | the table found is below the root, is named `BENJY` and has tag `table`; none is found exactly when no such element lies below the root |
| OdsScan.FindIn | dral_text/management/commands/drtext.py:24 | the search below a list of elements: each element, then the elements below it, before its next sibling; stated by `FindInIsFirstInPreorder` |
| OdsScan.FindBenjyTable | dral_text/management/commands/drtext.py:24 | `root.find(".//table[@name='BENJY']")`: the search below the root's children; stated by `FindBenjyTableSpec` |
| OdsScan.ChildrenTagged | dral_text/management/commands/drtext.py:29 | `findall(tag)` on an element: its direct children with that tag, in order; stated by `FilterTag`, `FilterTagAppend` and `FilterTagCount` |
| OdsScan.FilterTag | dral_text/management/commands/drtext.py:29 | an element is in `findall(tag)`'s result exactly when it is a direct child with that tag; order and multiplicity are stated by `FilterTagAppend` and `FilterTagCount` |
| OdsScan.FilterTagAppend | dral_text/management/commands/drtext.py:29-31 | `findall` keeps document order: the children with the tag from a concatenation are those of the first part followed by those of the second |
| OdsScan.FilterTagCount | dral_text/management/commands/drtext.py:29-31 | `findall` keeps each child with the tag exactly as many times as it occurs among the children, and no child with another tag |
| OdsScan.RowWidthIsSpanSum | dral_text/management/commands/drtext.py:31-37 | a row's count succeeds exactly when every cell's repeat count is an integer, and is then the sum of the cells' spans |
| OdsScan.RowWidthAtLeastCells | dral_text/management/commands/drtext.py:31-37 | with every repeat count at least 1, a row counts at least as many columns as cells; with no repeat attribute, exactly as many |
| OdsScan.RowWidthErrPersists | dral_text/management/commands/drtext.py:35 | a bad repeat count in a row makes the row's count fail with that error |
| OdsScan.RowWidthsPerRow | dral_text/management/commands/drtext.py:29-30 | `col` restarts for every row: there is one count per row, in document order, each that row's own count |
| OdsScan.RowWidthsFail | dral_text/management/commands/drtext.py:29-37 | the scan fails exactly when some row's count fails (some cell of it has a bad repeat count) |
| OdsScan.RowWidthsErrPersists | dral_text/management/commands/drtext.py:29-35 | a failing row stops the whole scan with its error |
| OdsScan.CellSpan | dral_text/management/commands/drtext.py:33-37 | the columns one cell adds to `col`: its `number-columns-repeated` read by `int` when present and non-empty (a ValueError for a bad one), and 1 otherwise |
| OdsScan.RowWidth | dral_text/management/commands/drtext.py:31-37 | `col` after a row's cells: the spans added from the left, stopping at the first bad repeat count; stated by `RowWidthIsSpanSum`, `RowWidthAtLeastCells` and `RowWidthErrPersists` |
| OdsScan.RowWidths | dral_text/management/commands/drtext.py:29-37 | the counts of the rows in document order, stopping at the first failing row; stated by `RowWidthsPerRow`, `RowWidthsFail` and `RowWidthsErrPersists` |
| OdsScan.CountColumns | dral_text/management/commands/drtext.py:30-38 | the cell loop ends with `col` equal to the row's count, or with the first bad repeat count |
| OdsScan.CountRows | dral_text/management/commands/drtext.py:29-38 | the row loop gives one count per row, stopping with the error of the first row whose count fails |
| OdsScan.ActionImport | dral_text/management/commands/drtext.py:16-38 | fails when the stripped text does not parse or has no BENJY table; otherwise returns the counts for the table's direct `table-row` children, each over that row's direct `table-cell` children |

## Left out

- File reading (`_read_file`), `print`, and the base command class are not modelled. `ET.fromstring` is a parameter `parse` of `OdsScan.ActionImport`; a parse error is `None`.
- The source computes `col` for each row and discards it; `ActionImport` returns the counts instead. The prints of the table (`drtext.py:25`), of each non-empty span (`drtext.py:36`) and of each row (`drtext.py:39`) are left out.
- `urllib.parse.quote` is the uninterpreted parameter `quote` of `FilterVars.GetQueryString`. Its safe character `,` is not modelled.
- A Django request is reduced to the map `request.GET` from keys to strings. A key repeated in the query string is not modelled.
- Python's dynamic typing is narrowed to typed definitions. An option-based definition's `selected`/`default` are lists of keys. A value-based default or `value` is an `int` or a `str`.
- `set` with a list on a value-based variable returns `NotAScalar`. The source stores the list for a type other than `'int'`.
- A string `selected`/`default` on an option-based definition is not modelled. The source then tests substrings with `in`.
- `options` given as `None` or as something other than a list or a dict is not modelled.
- `get`'s `prop` argument is limited to `'key'` and `'name'`. The source accepts any option property.
- `add`'s `assert`s on key, name and type are the precondition `Admissible` of `FilterVars.ApiVars.Add`. A failing assertion is not an error path here.
- `add` rewrites the caller's dictionary in place (`var['options'] = options`) and stores that same object. The model stores a fresh value, so the caller's view of the change and the aliasing between caller and registry are not modelled.
- `Strings.ParseInt` covers only an optional sign and ASCII digits, after stripping whitespace. Python's `int()` also accepts `_` between digits and non-ASCII decimal digits.
- Strings.Title: changes ASCII letters only, and counts a non-ASCII cased letter as a non-letter, so an ASCII letter right after one is upper-cased. `Title("łódź")` is `"łóDź"`, where Python's `str.title()` gives `"Łódź"`. `FilterVars.NameFromKey` inherits this, also for the ASCII letters of its output.
- The rest of the repository is not part of this model: the full import pipeline, the views' SQL, the models and configuration, `kdlencrypt.py`, and the JavaScript front end.
