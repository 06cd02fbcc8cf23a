/** The text of the state file: how a store is printed, how a text is read back, and which
    texts load. */
module EnvFile {
  import opened Basics
  import opened Text
  import opened Adoption

  // ---- printing ----

  function PrintField(field: Field, store: Store): string {
    if Get(field, store) == "" then "" else EnvKey(field) + "=" + Get(field, store) + "\n"
  }

  /** The fields from position i of the table on, in table order. */
  function PrintFrom(store: Store, i: nat): string
    requires i <= |STORE_FIELDS|
    decreases |STORE_FIELDS| - i
  {
    if i == |STORE_FIELDS| then "" else PrintField(STORE_FIELDS[i], store) + PrintFrom(store, i + 1)
  }

  function Print(store: Store): string {
    PrintFrom(store, 0)
  }

  // ---- reading ----

  datatype LoadError =
    | WhitespaceOnlyLine | SurroundingWhitespace | NotKeyValue | MalformedKey
    | DuplicateField | EmptyValue | MalformedValue | RefusedField
    | NoSupportedFields | RefusedStore

  /** One line: nothing to do, a recognised field with its value, or an error. */
  datatype Line = Skipped | Assignment(field: Field, value: string) | Malformed(error: LoadError)

  function ReadLine(line: string): (r: Line)
    ensures r.Assignment? ==> line == EnvKey(r.field) + "=" + r.value
  {
    if TrimSpace(line) == "" then
      if line != "" then Malformed(WhitespaceOnlyLine) else Skipped
    else if line != TrimSpace(line) then Malformed(SurroundingWhitespace)
    else
      var cut := IndexOf(line, '=');
      if cut == |line| then Malformed(NotKeyValue)
      else
        var key, value := line[..cut], line[cut + 1..];
        if key == "" || key != TrimSpace(key) then Malformed(MalformedKey)
        else
          var field := FieldByEnvKey(key);
          assert line == key + "=" + value;
          if field.None? then Skipped else Assignment(field.value, value)
  }

  /** The checks a recognised field passes before it is set, in order. */
  function CheckField(urls: UrlPolicy, field: Field, value: string, seen: set<Field>): Option<LoadError> {
    if field in seen then Some(DuplicateField)
    else if value == "" then Some(EmptyValue)
    else if !ValidPersistedValue(value) then Some(MalformedValue)
    else if !ValidPersistedField(urls, field, value) then Some(RefusedField)
    else None
  }

  /** The state of the reading loop: the store so far and the fields already set. */
  datatype Reading = Reading(store: Store, seen: set<Field>)

  const START := Reading(EMPTY_STORE, {})

  function ReadStep(urls: UrlPolicy, r: Reading, line: string): Result<Reading, LoadError> {
    match ReadLine(line)
    case Skipped => Ok(r)
    case Malformed(error) => Err(error)
    case Assignment(field, value) =>
      match CheckField(urls, field, value, r.seen)
      case Some(error) => Err(error)
      case None => Ok(Reading(Set(field, r.store, value), r.seen + {field}))
  }

  function ReadLines(urls: UrlPolicy, r: Reading, lines: seq<string>): Result<Reading, LoadError>
    decreases |lines|
  {
    if lines == [] then Ok(r)
    else
      var next := ReadStep(urls, r, lines[0]);
      if next.Err? then next else ReadLines(urls, next.value, lines[1..])
  }

  function Parse(urls: UrlPolicy, text: string): Result<Store, LoadError> {
    var r := ReadLines(urls, START, Split(text, '\n'));
    if r.Err? then Err(r.error)
    else if r.value.seen == {} then Err(NoSupportedFields)
    else if !ValidPersistedStore(r.value.store) then Err(RefusedStore)
    else Ok(r.value.store)
  }

  lemma {:induction false} ReadLinesAppend(urls: UrlPolicy, r: Reading, before: seq<string>, after: seq<string>)
    ensures ReadLines(urls, r, before + after)
         == var mid := ReadLines(urls, r, before);
            if mid.Err? then mid else ReadLines(urls, mid.value, after)
    decreases |before|
  {
    if before == [] {
      assert before + after == after;
    } else {
      assert (before + after)[1..] == before[1..] + after;
      var next := ReadStep(urls, r, before[0]);
      if next.Ok? {
        ReadLinesAppend(urls, next.value, before[1..], after);
      }
    }
  }

  /** Reads a state file line by line into a store. */
  method ReadStore(urls: UrlPolicy, text: string) returns (r: Result<Store, LoadError>)
    ensures r == Parse(urls, text)
  {
    hide TrimSpace, IndexOf, Split, FieldByEnvKey, ValidPersistedValue, ValidPersistedField, ValidPersistedStore, Set, EnvKey;
    var lines := Split(text, '\n');
    var store := EMPTY_STORE;
    var seen: set<Field> := {};
    var recognized := 0;
    for i := 0 to |lines|
      invariant recognized == 0 <==> seen == {}
      invariant ReadLines(urls, START, lines) == ReadLines(urls, Reading(store, seen), lines[i..])
      invariant recognized >= 0
    {
      var line := lines[i];
      var trimmed := TrimSpace(line);
      assert lines[i..][0] == line && lines[i..][1..] == lines[i + 1..];
      if trimmed == "" {
        if line != "" {
          return Err(WhitespaceOnlyLine);
        }
        continue;
      }
      if line != trimmed {
        return Err(SurroundingWhitespace);
      }
      var cut := IndexOf(line, '=');
      if cut == |line| {
        return Err(NotKeyValue);
      }
      var key, value := line[..cut], line[cut + 1..];
      if key == "" || key != TrimSpace(key) {
        return Err(MalformedKey);
      }
      var field := FieldByEnvKey(key);
      if field.Some? {
        if field.value in seen {
          return Err(DuplicateField);
        }
        if value == "" {
          return Err(EmptyValue);
        }
        if !ValidPersistedValue(value) {
          return Err(MalformedValue);
        }
        if !ValidPersistedField(urls, field.value, value) {
          return Err(RefusedField);
        }
        seen := seen + {field.value};
        recognized := recognized + 1;
        store := Set(field.value, store, value);
      }
    }
    if recognized == 0 {
      return Err(NoSupportedFields);
    }
    if !ValidPersistedStore(store) {
      return Err(RefusedStore);
    }
    return Ok(store);
  }

  lemma PrintFromStep(store: Store, i: nat)
    requires i <= |STORE_FIELDS|
    ensures PrintFrom(store, i)
         == if i == |STORE_FIELDS| then "" else PrintField(STORE_FIELDS[i], store) + PrintFrom(store, i + 1)
  {
  }

  /** Prints a store, or refuses it. */
  method PrintStore(urls: UrlPolicy, store: Store) returns (text: Option<string>)
    ensures text == if Persistable(urls, store) then Some(Print(store)) else None
  {
    hide ValidPersistedValue, ValidPersistedField, ValidPersistedStore, EnvKey, Get, PrintFrom;
    var fields := 0;
    var out := "";
    for i := 0 to |STORE_FIELDS|
      invariant 0 <= fields
      invariant fields == 0 <==> forall j :: 0 <= j < i ==> Get(STORE_FIELDS[j], store) == ""
      invariant forall j :: 0 <= j < i ==> FieldValid(urls, STORE_FIELDS[j], store)
      invariant Print(store) == out + PrintFrom(store, i)
    {
      var field := STORE_FIELDS[i];
      var value := Get(field, store);
      if value != "" {
        fields := fields + 1;
        if !ValidPersistedValue(value) || !ValidPersistedField(urls, field, value) {
          assert !FieldValid(urls, field, store);
          return None;
        }
        out := out + (EnvKey(field) + "=" + value + "\n");
      }
      PrintFromStep(store, i);
    }
    PrintFromStep(store, |STORE_FIELDS|);
    assert fields == 0 <==> store == EMPTY_STORE by { BlankIffEveryFieldIs(store); }
    forall f: Field
      ensures FieldValid(urls, f, store)
    {
      assert STORE_FIELDS[Position(f)] == f;
    }
    if fields == 0 || !ValidPersistedStore(store) {
      return None;
    }
    assert out + PrintFrom(store, |STORE_FIELDS|) == out;
    return Some(out);
  }

  /** Where a field stands in the table. */
  function Position(field: Field): (i: nat)
    ensures i < |STORE_FIELDS| && STORE_FIELDS[i] == field
  {
    match field
    case StateField => 0
    case InformURLField => 1
    case AuthKeyField => 2
    case CfgVersionField => 3
    case UseGCMField => 4
    case VersionField => 5
  }

  lemma BlankIffEveryFieldIs(store: Store)
    ensures store == EMPTY_STORE <==> forall j :: 0 <= j < |STORE_FIELDS| ==> Get(STORE_FIELDS[j], store) == ""
  {
    if forall j :: 0 <= j < |STORE_FIELDS| ==> Get(STORE_FIELDS[j], store) == "" {
      forall f: Field
        ensures Get(f, store) == ""
      {
        assert STORE_FIELDS[Position(f)] == f;
      }
      assert Get(StateField, store) == "" && Get(InformURLField, store) == "" && Get(AuthKeyField, store) == "";
      assert Get(CfgVersionField, store) == "" && Get(UseGCMField, store) == "" && Get(VersionField, store) == "";
    }
  }

  // ---- what is printed reads back ----

  ghost predicate KeyShaped(key: string) {
    key != "" && forall c <- key :: 'A' <= c <= 'Z' || c == '_'
  }

  lemma EnvKeysAreKeyShaped(field: Field)
    ensures KeyShaped(EnvKey(field)) && FieldByEnvKey(EnvKey(field)) == Some(field)
  {
  }

  lemma KeyHasNoSpace(key: string, rest: string)
    requires KeyShaped(key)
    ensures LeadingSpace(key + rest) == 0 && LeadingSpace(key) == 0 && TrailingSpace(key) == 0
  {
    assert key[0] in key && (key + rest)[0] == key[0];
    assert key[|key| - 1] in key && (|key| >= 2 ==> key[|key| - 2] in key) && (|key| >= 3 ==> key[|key| - 3] in key);
  }

  lemma EndOfLineIsEndOfValue(key: string, value: string)
    requires value != "" && TrailingSpace(value) == 0
    ensures TrailingSpace(key + "=" + value) == 0
  {
    var line := key + "=" + value;
    var n, m := |line|, |value|;
    assert line[n - 1] == value[m - 1];
    assert m >= 2 ==> line[n - 2] == value[m - 2];
    assert m >= 3 ==> line[n - 3] == value[m - 3];
    assert m < 3 ==> line[n - m - 1] == '=';
  }

  /** A key and a trimmed value make a line that cuts back into the two. */
  lemma KeyValueLine(key: string, value: string)
    requires KeyShaped(key) && value != "" && value == TrimSpace(value)
    ensures var line := key + "=" + value;
            && line == TrimSpace(line) && key == TrimSpace(key)
            && IndexOf(line, '=') == |key| && line[..|key|] == key && line[|key| + 1..] == value
  {
    hide TrimSpace, LeadingSpace, TrailingSpace, IndexOf;
    var line := key + "=" + value;
    assert line == key + ("=" + value);
    KeyHasNoSpace(key, "=" + value);
    EndOfLineIsEndOfValue(key, value);
    assert line[|key|] == '=' && forall j :: 0 <= j < |key| ==> line[j] == key[j] && key[j] in key;
  }

  /** A printed line is read as the field it was printed from. */
  lemma PrintedLineReadsBack(field: Field, value: string)
    requires value != "" && ValidPersistedValue(value)
    ensures ReadLine(EnvKey(field) + "=" + value) == Assignment(field, value)
    ensures '\n' !in EnvKey(field) + "=" + value
  {
    hide TrimSpace, IndexOf, EnvKey, FieldByEnvKey;
    EnvKeysAreKeyShaped(field);
    KeyValueLine(EnvKey(field), value);
    assert ControlByte('\n');
  }

  /** The fields of a store before position i of the table, the others blank. */
  ghost function Prefix(store: Store, i: nat): Store {
    Overlaid(EMPTY_STORE, store, i)
  }

  ghost function Seen(store: Store, i: nat): set<Field>
    requires i <= |STORE_FIELDS|
  {
    set j | 0 <= j < i && Get(STORE_FIELDS[j], store) != "" :: STORE_FIELDS[j]
  }

  lemma SeenStep(store: Store, i: nat)
    requires i < |STORE_FIELDS|
    ensures STORE_FIELDS[i] !in Seen(store, i)
    ensures Seen(store, i + 1) == if Get(STORE_FIELDS[i], store) != "" then Seen(store, i) + {STORE_FIELDS[i]} else Seen(store, i)
  {
    hide Get;
    forall j | 0 <= j < |STORE_FIELDS| && j != i
      ensures STORE_FIELDS[j] != STORE_FIELDS[i]
    {
      assert Position(STORE_FIELDS[j]) == j && Position(STORE_FIELDS[i]) == i;
    }
  }

  /** Reading the line of field i moves the loop from the fields before i to those up to i. */
  lemma PrintedFieldStep(urls: UrlPolicy, store: Store, i: nat)
    requires Persistable(urls, store) && i < |STORE_FIELDS| && Get(STORE_FIELDS[i], store) != ""
    ensures ReadStep(urls, Reading(Prefix(store, i), Seen(store, i)), EnvKey(STORE_FIELDS[i]) + "=" + Get(STORE_FIELDS[i], store))
         == Ok(Reading(Prefix(store, i + 1), Seen(store, i + 1)))
  {
    hide ReadLine, ValidPersistedValue, ValidPersistedField, Set, Get, Overlaid, EnvKey, ValidPersistedStore, Seen;
    var field := STORE_FIELDS[i];
    assert FieldValid(urls, field, store);
    OverlayStep(EMPTY_STORE, store, i);
    PrintedLineReadsBack(field, Get(field, store));
    SeenStep(store, i);
  }

  lemma ReadLinesCons(urls: UrlPolicy, r: Reading, line: string, rest: seq<string>)
    ensures ReadLines(urls, r, [line] + rest)
         == var next := ReadStep(urls, r, line); if next.Err? then next else ReadLines(urls, next.value, rest)
  {
    hide ReadStep;
    assert ([line] + rest)[1..] == rest;
  }

  lemma EndOfText(urls: UrlPolicy, r: Reading)
    ensures ReadLines(urls, r, Split("", '\n')) == Ok(r)
  {
    hide TrimRight, FieldByEnvKey, CheckField;
    assert Split("", '\n') == [""] + [];
    assert TrimSpace("") == "";
    assert ReadStep(urls, r, "") == Ok(r);
    ReadLinesCons(urls, r, "", []);
  }

  lemma {:induction false} PrintedFieldsReadBack(urls: UrlPolicy, store: Store, i: nat)
    requires Persistable(urls, store) && i <= |STORE_FIELDS|
    ensures ReadLines(urls, Reading(Prefix(store, i), Seen(store, i)), Split(PrintFrom(store, i), '\n'))
         == Ok(Reading(store, Seen(store, |STORE_FIELDS|)))
    decreases |STORE_FIELDS| - i
  {
    hide ReadStep, ReadLines, Split, Persistable, Set, EnvKey, TrimSpace, IndexOf, PrintFrom;
    var r := Reading(Prefix(store, i), Seen(store, i));
    PrintFromStep(store, i);
    if i == |STORE_FIELDS| {
      EndOfText(urls, r);
      assert Prefix(store, i) == store;
    } else {
      var field := STORE_FIELDS[i];
      var value := Get(field, store);
      PrintedFieldsReadBack(urls, store, i + 1);
      if value == "" {
        OverlayStep(EMPTY_STORE, store, i);
        SeenStep(store, i);
        assert PrintFrom(store, i) == PrintFrom(store, i + 1);
      } else {
        hide Overlaid;
        var line := EnvKey(field) + "=" + value;
        var rest := PrintFrom(store, i + 1);
        PrintedFieldStep(urls, store, i);
        assert '\n' !in line by {
          FieldsOf(urls, store, field);
          PrintedLineReadsBack(field, value);
        }
        SplitLine(line, rest, '\n');
        assert PrintFrom(store, i) == line + ['\n'] + rest;
        ReadLinesCons(urls, r, line, Split(rest, '\n'));
      }
    }
  }

  lemma FieldsOf(urls: UrlPolicy, store: Store, field: Field)
    requires Persistable(urls, store)
    ensures FieldValid(urls, field, store)
  {
  }

  lemma NoFieldsYet(store: Store)
    ensures Prefix(store, 0) == EMPTY_STORE && Seen(store, 0) == {} && Print(store) == PrintFrom(store, 0)
  {
  }

  lemma SomeFieldIsSeen(store: Store)
    requires store != EMPTY_STORE
    ensures Seen(store, |STORE_FIELDS|) != {}
  {
    hide Get;
    BlankIffEveryFieldIs(store);
    var i :| 0 <= i < |STORE_FIELDS| && Get(STORE_FIELDS[i], store) != "";
    assert STORE_FIELDS[i] in Seen(store, |STORE_FIELDS|);
  }

  lemma ParsedReading(urls: UrlPolicy, text: string, r: Reading)
    requires ReadLines(urls, START, Split(text, '\n')) == Ok(r) && r.seen != {} && ValidPersistedStore(r.store)
    ensures Parse(urls, text) == Ok(r.store)
  {
    hide ReadLines, Split;
  }

  /** Every store SaveEnv accepts is read back exactly. */
  lemma SavedStoreLoads(urls: UrlPolicy, store: Store)
    requires Persistable(urls, store)
    ensures Parse(urls, Print(store)) == Ok(store)
  {
    NoFieldsYet(store);
    PrintedFieldsReadBack(urls, store, 0);
    hide ReadLines, Split, PrintFrom, Print, Parse, Prefix, Seen, FieldValid, ValidPersistedStore;
    SomeFieldIsSeen(store);
    ParsedReading(urls, Print(store), Reading(store, Seen(store, |STORE_FIELDS|)));
  }

  // ---- what is read is fit to be written ----

  ghost predicate FieldsValid(urls: UrlPolicy, store: Store) {
    forall f: Field :: FieldValid(urls, f, store)
  }

  lemma SetKeepsFieldsValid(urls: UrlPolicy, store: Store, field: Field, value: string)
    requires FieldsValid(urls, store) && ValidPersistedValue(value) && ValidPersistedField(urls, field, value)
    ensures FieldsValid(urls, Set(field, store, value))
  {
    hide ValidPersistedField;
    var after := Set(field, store, value);
    forall f: Field
      ensures FieldValid(urls, f, after)
    {
      assert FieldValid(urls, f, store);
      if f == field && f == UseGCMField && after.useAESGCM {
        TrueIsValid(urls);
      }
    }
  }

  lemma TrueIsValid(urls: UrlPolicy)
    ensures ValidPersistedValue("true") && ValidPersistedField(urls, UseGCMField, "true")
  {
    hide TrimLeft, TrimRight;
    var value := "true";
    assert value[0] == 't' && value[1] == 'r' && value[2] == 'u' && value[3] == 'e' && |value| == 4;
    assert LeadingSpace(value) == 0 && TrailingSpace(value) == 0;
  }

  lemma {:induction false} ReadFieldsAreValid(urls: UrlPolicy, r: Reading, lines: seq<string>)
    requires FieldsValid(urls, r.store)
    ensures var end := ReadLines(urls, r, lines); end.Ok? ==> FieldsValid(urls, end.value.store)
    decreases |lines|
  {
    hide ReadLine, ValidPersistedValue, ValidPersistedField, Set, FieldsValid;
    if lines != [] {
      var next := ReadStep(urls, r, lines[0]);
      if next.Ok? {
        match ReadLine(lines[0]) {
          case Assignment(field, value) => SetKeepsFieldsValid(urls, r.store, field, value);
          case _ =>
        }
        ReadFieldsAreValid(urls, next.value, lines[1..]);
      }
    }
  }

  /** A file that loads re-saves to a canonical text that loads to the same store,
      unless every line it had said "nothing" and re-saving is refused. */
  lemma LoadedStoreResaves(urls: UrlPolicy, text: string)
    requires Parse(urls, text).Ok?
    ensures var store := Parse(urls, text).value;
            && (store != EMPTY_STORE <==> Persistable(urls, store))
            && (Persistable(urls, store) ==> Parse(urls, Print(store)) == Ok(store))
  {
    hide ReadStep, ValidPersistedValue, ValidPersistedField, ValidPersistedStore, Split, Print;
    assert FieldsValid(urls, EMPTY_STORE);
    ReadFieldsAreValid(urls, START, Split(text, '\n'));
    var store := Parse(urls, text).value;
    if store != EMPTY_STORE {
      assert forall f: Field :: FieldValid(urls, f, store);
      SavedStoreLoads(urls, store);
    }
  }

  lemma FalseIsValid(urls: UrlPolicy)
    ensures ValidPersistedValue("false") && CheckField(urls, UseGCMField, "false", {}) == None && ParseBool("false") == Some(false)
  {
    hide TrimLeft, TrimRight;
    var value := "false";
    assert value[0] == 'f' && value[1] == 'a' && value[2] == 'l' && value[3] == 's' && value[4] == 'e' && |value| == 5;
    assert LeadingSpace(value) == 0 && TrailingSpace(value) == 0;
  }

  lemma FalseStep(urls: UrlPolicy)
    ensures ReadStep(urls, START, EnvKey(UseGCMField) + "=" + "false") == Ok(Reading(EMPTY_STORE, {UseGCMField}))
    ensures '\n' !in EnvKey(UseGCMField) + "=" + "false"
  {
    hide ReadLine, EnvKey, CheckField, ValidPersistedValue, ParseBool;
    FalseIsValid(urls);
    PrintedLineReadsBack(UseGCMField, "false");
    assert {} + {UseGCMField} == {UseGCMField};
  }

  /** One kind of file that loads to the blank store: USE_AES_GCM spelled false. */
  lemma BlankStoreFile(urls: UrlPolicy)
    ensures Parse(urls, EnvKey(UseGCMField) + "=" + "false" + "\n") == Ok(EMPTY_STORE)
  {
    hide ReadStep, ReadLines, Split, EnvKey;
    var line := EnvKey(UseGCMField) + "=" + "false";
    var r := Reading(EMPTY_STORE, {UseGCMField});
    assert ReadLines(urls, START, [line] + Split("", '\n')) == Ok(r) by {
      FalseStep(urls);
      ReadLinesCons(urls, START, line, Split("", '\n'));
      EndOfText(urls, r);
    }
    assert Split(line + "\n", '\n') == [line] + Split("", '\n') by {
      FalseStep(urls);
      SplitLine(line, "", '\n');
      assert line + ['\n'] + "" == line + "\n";
    }
  }

  // ---- which files load, and to what ----

  ghost predicate GoodLine(urls: UrlPolicy, line: string) {
    match ReadLine(line)
    case Skipped => true
    case Malformed(_) => false
    case Assignment(field, value) => value != "" && ValidPersistedValue(value) && ValidPersistedField(urls, field, value)
  }

  ghost predicate AllGood(urls: UrlPolicy, lines: seq<string>) {
    forall i :: 0 <= i < |lines| ==> GoodLine(urls, lines[i])
  }

  lemma AllGoodCons(urls: UrlPolicy, lines: seq<string>)
    requires lines != []
    ensures AllGood(urls, lines) <==> GoodLine(urls, lines[0]) && AllGood(urls, lines[1..])
  {
    hide GoodLine;
    if GoodLine(urls, lines[0]) && AllGood(urls, lines[1..]) {
      forall i | 0 < i < |lines|
        ensures GoodLine(urls, lines[i])
      {
        assert lines[i] == lines[1..][i - 1];
      }
    }
  }

  ghost function AssignedFields(lines: seq<string>): set<Field> {
    if lines == [] then {}
    else AssignedFields(lines[1..]) + if ReadLine(lines[0]).Assignment? then {ReadLine(lines[0]).field} else {}
  }

  ghost predicate AssignsEachFieldOnce(lines: seq<string>) {
    lines == [] ||
    (AssignsEachFieldOnce(lines[1..]) && (ReadLine(lines[0]).Assignment? ==> ReadLine(lines[0]).field !in AssignedFields(lines[1..])))
  }

  /** The value some line gives a field. */
  ghost function Lookup(lines: seq<string>, field: Field): string
    requires field in AssignedFields(lines)
  {
    var first := ReadLine(lines[0]);
    if first.Assignment? && first.field == field then first.value else Lookup(lines[1..], field)
  }

  ghost function Told(lines: seq<string>, field: Field): Option<string> {
    if field in AssignedFields(lines) then Some(Lookup(lines, field)) else None
  }

  /** A store with every assigned field replaced by its value, whatever the line order. */
  ghost function AsTold(base: Store, lines: seq<string>): Store {
    Store(
      Told(lines, InformURLField).GetOr(base.informURL),
      Told(lines, AuthKeyField).GetOr(base.authKey),
      Told(lines, CfgVersionField).GetOr(base.cfgVersion),
      if Told(lines, UseGCMField).Some? then ParseBool(Told(lines, UseGCMField).value) == Some(true) else base.useAESGCM,
      Told(lines, VersionField).GetOr(base.version),
      Told(lines, StateField).GetOr(base.state))
  }

  lemma ToldStep(lines: seq<string>, field: Field)
    requires lines != [] && AssignsEachFieldOnce(lines)
    ensures var first := ReadLine(lines[0]);
            if first.Assignment? && first.field == field then Told(lines, field) == Some(first.value) && Told(lines[1..], field) == None
            else Told(lines, field) == Told(lines[1..], field)
  {
    hide ReadLine;
  }

  lemma AsToldStep(base: Store, lines: seq<string>)
    requires lines != [] && AssignsEachFieldOnce(lines)
    ensures var first := ReadLine(lines[0]);
            AsTold(base, lines)
            == if first.Assignment? then AsTold(Set(first.field, base, first.value), lines[1..]) else AsTold(base, lines[1..])
  {
    hide ReadLine, Told, ParseBool, AssignsEachFieldOnce;
    ToldStep(lines, InformURLField);
    ToldStep(lines, AuthKeyField);
    ToldStep(lines, CfgVersionField);
    ToldStep(lines, UseGCMField);
    ToldStep(lines, VersionField);
    ToldStep(lines, StateField);
  }

  lemma {:induction false} ReadLinesMeans(urls: UrlPolicy, r: Reading, lines: seq<string>)
    ensures ReadLines(urls, r, lines).Ok? <==>
              AllGood(urls, lines) && AssignsEachFieldOnce(lines) && AssignedFields(lines) !! r.seen
    ensures ReadLines(urls, r, lines).Ok? ==>
              ReadLines(urls, r, lines) == Ok(Reading(AsTold(r.store, lines), r.seen + AssignedFields(lines)))
    decreases |lines|
  {
    hide ReadLine, ValidPersistedValue, ValidPersistedField, Set, AsTold, AllGood;
    if lines == [] {
      assert AllGood(urls, lines) && AsTold(r.store, lines) == r.store by { AsToldNothing(urls, r.store); }
      assert r.seen + AssignedFields(lines) == r.seen;
    } else {
      AllGoodCons(urls, lines);
      match ReadLine(lines[0]) {
        case Skipped =>
          assert AssignedFields(lines) == AssignedFields(lines[1..]);
          ReadLinesMeans(urls, r, lines[1..]);
          if AssignsEachFieldOnce(lines) { AsToldStep(r.store, lines); }
        case Malformed(_) =>
        case Assignment(field, value) =>
          if GoodLine(urls, lines[0]) && field !in r.seen {
            var next := Reading(Set(field, r.store, value), r.seen + {field});
            ReadLinesMeans(urls, next, lines[1..]);
            if AssignsEachFieldOnce(lines) { AsToldStep(r.store, lines); }
            assert next.seen + AssignedFields(lines[1..]) == r.seen + AssignedFields(lines);
          }
      }
    }
  }

  lemma AsToldNothing(urls: UrlPolicy, base: Store)
    ensures AsTold(base, []) == base && AllGood(urls, [])
  {
  }

  /** A file loads exactly when every line is blank, unknown or a well-formed assignment,
      no field is assigned twice, some field is assigned and the resulting store is
      consistent; the store holds what the lines say, in whatever order they come. */
  lemma FileLoadsIff(urls: UrlPolicy, text: string)
    ensures var lines := Split(text, '\n');
            && (Parse(urls, text).Ok? <==>
                 && AllGood(urls, lines)
                 && AssignsEachFieldOnce(lines) && AssignedFields(lines) != {}
                 && ValidPersistedStore(AsTold(EMPTY_STORE, lines)))
            && (Parse(urls, text).Ok? ==> Parse(urls, text) == Ok(AsTold(EMPTY_STORE, lines)))
  {
    hide AllGood, AssignsEachFieldOnce, AssignedFields, AsTold, Split, ReadLines, ValidPersistedStore;
    ReadLinesMeans(urls, START, Split(text, '\n'));
  }

  // ---- line by line ----

  predicate Trimmed(text: string) {
    LeadingSpace(text) == 0 && TrailingSpace(text) == 0
  }

  /** Lines that are no assignment: an empty line is skipped, one of white space only, one
      with white space around it and one without an equals sign are refused. */
  lemma OtherLines(line: string)
    ensures line == "" ==> ReadLine(line) == Skipped
    ensures line != "" && Spaces(line) ==> ReadLine(line) == Malformed(WhitespaceOnlyLine)
    ensures !Spaces(line) && !Trimmed(line) ==> ReadLine(line) == Malformed(SurroundingWhitespace)
    ensures line != "" && Trimmed(line) && '=' !in line ==> ReadLine(line) == Malformed(NotKeyValue)
  {
    BlankIffSpaces(line);
    hide TrimLeft, TrimRight, FieldByEnvKey;
  }

  lemma CutAtEquals(key: string, text: string)
    requires '=' !in key
    ensures var line := key + "=" + text;
            IndexOf(line, '=') == |key| && line[..|key|] == key && line[|key| + 1..] == text
  {
    var line := key + "=" + text;
    assert line[|key|] == '=' && forall j :: 0 <= j < |key| ==> line[j] == key[j];
    assert IndexOf(line, '=') == |key|;
  }

  /** A trimmed line cut at its first equals sign: six keys are assignments, a key that is
      blank or has white space around it is refused, and any other key is skipped. */
  lemma KeyValueLines(key: string, value: string)
    requires '=' !in key && Trimmed(key + "=" + value)
    ensures ReadLine(key + "=" + value) ==
              if key == "" || !Trimmed(key) then Malformed(MalformedKey)
              else if key == "STATE" then Assignment(StateField, value)
              else if key == "INFORM_URL" then Assignment(InformURLField, value)
              else if key == "AUTHKEY" then Assignment(AuthKeyField, value)
              else if key == "CFGVERSION" then Assignment(CfgVersionField, value)
              else if key == "USE_AES_GCM" then Assignment(UseGCMField, value)
              else if key == "VERSION" then Assignment(VersionField, value)
              else Skipped
  {
    ReadLineCut(key, value);
    hide TrimSpace, LeadingSpace, TrailingSpace, ReadLine;
  }

  lemma ReadLineCut(key: string, value: string)
    requires '=' !in key && Trimmed(key + "=" + value)
    ensures ReadLine(key + "=" + value) ==
              if key == "" || !Trimmed(key) then Malformed(MalformedKey)
              else if FieldByEnvKey(key).None? then Skipped
              else Assignment(FieldByEnvKey(key).value, value)
  {
    CutAtEquals(key, value);
    hide TrimLeft, TrimRight, LeadingSpace, TrailingSpace, IndexOf, FieldByEnvKey;
    assert key + "=" + value != "";
  }

  /** What is wrong with a line, given the fields the lines before it assign. */
  ghost function LineFault(urls: UrlPolicy, line: string, taken: set<Field>): Option<LoadError> {
    match ReadLine(line)
    case Skipped => None
    case Malformed(error) => Some(error)
    case Assignment(field, value) =>
      if field in taken then Some(DuplicateField)
      else if value == "" then Some(EmptyValue)
      else if !Trimmed(value) || exists c <- value :: ControlByte(c) then Some(MalformedValue)
      else if !ValidPersistedField(urls, field, value) then Some(RefusedField)
      else None
  }

  lemma FaultyStep(urls: UrlPolicy, r: Reading, line: string)
    requires LineFault(urls, line, r.seen).Some?
    ensures ReadStep(urls, r, line) == Err(LineFault(urls, line, r.seen).value)
  {
    hide ReadLine, ValidPersistedField, TrimLeft, TrimRight;
  }

  /** A file is refused for the first line that is wrong, whatever comes after it. */
  lemma FirstFaultIsReported(urls: UrlPolicy, good: seq<string>, bad: string, rest: seq<string>)
    requires forall line <- good + [bad] + rest :: '\n' !in line
    requires AllGood(urls, good) && AssignsEachFieldOnce(good)
    requires LineFault(urls, bad, AssignedFields(good)).Some?
    ensures Parse(urls, Joined(good + [bad] + rest, '\n')) == Err(LineFault(urls, bad, AssignedFields(good)).value)
  {
    hide AllGood, AssignsEachFieldOnce, ReadLines, LineFault, Split, Joined, AssignedFields;
    JoinedSplits(good + [bad] + rest, '\n');
    ReadingStops(urls, good, bad, rest);
  }

  lemma ReadingStops(urls: UrlPolicy, good: seq<string>, bad: string, rest: seq<string>)
    requires AllGood(urls, good) && AssignsEachFieldOnce(good)
    requires LineFault(urls, bad, AssignedFields(good)).Some?
    ensures ReadLines(urls, START, good + [bad] + rest) == Err(LineFault(urls, bad, AssignedFields(good)).value)
  {
    hide AllGood, AssignsEachFieldOnce, AsTold, ReadLines, ReadStep, LineFault, AssignedFields;
    ReadLinesMeans(urls, START, good);
    ReadLinesAppend(urls, START, good, [bad] + rest);
    var mid := ReadLines(urls, START, good).value;
    assert mid.seen == AssignedFields(good);
    FaultyStep(urls, mid, bad);
    ReadLinesCons(urls, mid, bad, rest);
    assert good + ([bad] + rest) == good + [bad] + rest;
  }

  // ---- which stores may be saved ----

  predicate Clean(text: string) {
    Trimmed(text) && forall c <- text :: !ControlByte(c)
  }

  lemma CleanIff(text: string)
    ensures ValidPersistedValue(text) <==> Clean(text)
  {
    hide TrimLeft, TrimRight, LeadingSpace, TrailingSpace;
  }

  lemma LowerWordIsClean(word: string)
    requires forall c <- word :: 'a' <= c <= 'z'
    ensures Clean(word)
  {
    if word != "" {
      assert word[0] in word && word[|word| - 1] in word;
      assert |word| >= 2 ==> word[1] in word && word[|word| - 2] in word;
      assert |word| >= 3 ==> word[2] in word && word[|word| - 3] in word;
    }
  }

  lemma StatesAreClean(state: State)
    requires KnownState(state)
    ensures Clean(state)
  {
    hide Clean;
    assert forall c <- STATE_FACTORY :: 'a' <= c <= 'z';
    assert forall c <- STATE_DISCOVERED :: 'a' <= c <= 'z';
    assert forall c <- STATE_ADOPTING :: 'a' <= c <= 'z';
    assert forall c <- STATE_PROVISIONING :: 'a' <= c <= 'z';
    assert forall c <- STATE_CONNECTED :: 'a' <= c <= 'z';
    assert forall c <- STATE_FAILED :: 'a' <= c <= 'z';
    LowerWordIsClean(state);
  }

  lemma FieldValidIff(urls: UrlPolicy, field: Field, store: Store)
    requires KnownState(store.state)
    ensures FieldValid(urls, field, store) <==>
              match field
              case StateField => true
              case InformURLField =>
                store.informURL == "" || (|store.informURL| <= 2048 && urls(store.informURL) && '#' !in store.informURL && Clean(store.informURL))
              case AuthKeyField =>
                store.authKey == "" || (WireKey(store.authKey).Some? && WireKey(store.authKey) != Some(DEFAULT_KEY) && Clean(store.authKey))
              case CfgVersionField => |store.cfgVersion| <= 31 && Clean(store.cfgVersion)
              case UseGCMField => true
              case VersionField => Clean(store.version)
  {
    StatesAreClean(store.state);
    TrueIsValid(urls);
    CleanIff(Get(field, store));
    if field == AuthKeyField {
      ValidAuthKeyIff(store.authKey, true);
    }
    assert Clean("");
    hide ValidPersistedValue, Clean, ValidAuthKeyText, KnownState;
  }

  /** Which stores may be saved: some field is set, the state is one of the seven known ones,
      a factory device has no key and an adopting or connected one and one under GCM has; the
      key is an individual one, the URL is accepted and short, and no text has white space
      around it or a control byte in it. */
  lemma PersistableIff(urls: UrlPolicy, store: Store)
    ensures Persistable(urls, store) <==>
              && store != EMPTY_STORE
              && store.state in ["", "factory", "discovered", "adopting", "provisioning", "connected", "failed"]
              && (store.authKey == "" ==> store.state !in ["adopting", "connected"] && !store.useAESGCM)
              && (store.authKey != "" ==>
                    && store.state != "factory" && Clean(store.authKey)
                    && WireKey(store.authKey).Some? && WireKey(store.authKey) != Some(DEFAULT_KEY))
              && (store.informURL != "" ==> |store.informURL| <= 2048 && urls(store.informURL) && '#' !in store.informURL && Clean(store.informURL))
              && |store.cfgVersion| <= 31 && Clean(store.cfgVersion) && Clean(store.version)
  {
    hide FieldValid, Clean, WireKey;
    if KnownState(store.state) {
      forall f: Field
        ensures FieldValid(urls, f, store) <==>
                  match f
                  case StateField => true
                  case InformURLField =>
                    store.informURL == "" || (|store.informURL| <= 2048 && urls(store.informURL) && '#' !in store.informURL && Clean(store.informURL))
                  case AuthKeyField =>
                    store.authKey == "" || (WireKey(store.authKey).Some? && WireKey(store.authKey) != Some(DEFAULT_KEY) && Clean(store.authKey))
                  case CfgVersionField => |store.cfgVersion| <= 31 && Clean(store.cfgVersion)
                  case UseGCMField => true
                  case VersionField => Clean(store.version)
      {
        FieldValidIff(urls, f, store);
      }
      if Persistable(urls, store) {
        assert FieldValid(urls, InformURLField, store) && FieldValid(urls, AuthKeyField, store);
        assert FieldValid(urls, CfgVersionField, store) && FieldValid(urls, VersionField, store);
      }
    }
  }

  // ---- the text of a file ----

  function KeyLine(key: string, value: string): string {
    if value == "" then "" else key + "=" + value + "\n"
  }

  lemma FieldLines(store: Store)
    ensures PrintField(StateField, store) == KeyLine("STATE", store.state)
    ensures PrintField(InformURLField, store) == KeyLine("INFORM_URL", store.informURL)
    ensures PrintField(AuthKeyField, store) == KeyLine("AUTHKEY", store.authKey)
    ensures PrintField(CfgVersionField, store) == KeyLine("CFGVERSION", store.cfgVersion)
    ensures PrintField(UseGCMField, store) == KeyLine("USE_AES_GCM", if store.useAESGCM then "true" else "")
    ensures PrintField(VersionField, store) == KeyLine("VERSION", store.version)
  {
  }

  lemma FieldOrder(store: Store)
    ensures Print(store) ==
              PrintField(StateField, store) + (PrintField(InformURLField, store) + (PrintField(AuthKeyField, store)
              + (PrintField(CfgVersionField, store) + (PrintField(UseGCMField, store) + (PrintField(VersionField, store) + "")))))
  {
    hide PrintField;
    PrintFromStep(store, 0);
    PrintFromStep(store, 1);
    PrintFromStep(store, 2);
    PrintFromStep(store, 3);
    PrintFromStep(store, 4);
    PrintFromStep(store, 5);
    PrintFromStep(store, 6);
    hide PrintFrom;
  }

  /** A store is printed as one line for each field it has, in this order. */
  lemma PrintedText(store: Store)
    ensures Print(store) ==
              KeyLine("STATE", store.state) + (KeyLine("INFORM_URL", store.informURL) + (KeyLine("AUTHKEY", store.authKey)
              + (KeyLine("CFGVERSION", store.cfgVersion) + (KeyLine("USE_AES_GCM", if store.useAESGCM then "true" else "")
              + (KeyLine("VERSION", store.version) + "")))))
  {
    FieldLines(store);
    FieldOrder(store);
    hide Print, PrintField, KeyLine;
  }

  /** A file whose lines are all good is refused only when it assigns nothing, or when what it
      assigns is no consistent store. */
  lemma GoodLinesRefused(urls: UrlPolicy, text: string)
    requires AllGood(urls, Split(text, '\n')) && AssignsEachFieldOnce(Split(text, '\n'))
    ensures var lines := Split(text, '\n');
            Parse(urls, text) ==
              if AssignedFields(lines) == {} then Err(NoSupportedFields)
              else if !ValidPersistedStore(AsTold(EMPTY_STORE, lines)) then Err(RefusedStore)
              else Ok(AsTold(EMPTY_STORE, lines))
  {
    hide AllGood, AssignsEachFieldOnce, AssignedFields, AsTold, Split, ReadLines, ValidPersistedStore;
    ReadLinesMeans(urls, START, Split(text, '\n'));
  }
}
