/** The SSH shim's command line: splitting a line into commands and a command into fields.
    Texts here are sequences of runes. */
module Tokens {
  import opened Basics
  import Text
  import opened Runes

  // ---- command chains ----

  /** The replacer: "&&" and newlines become semicolons, left to right. */
  function Separated(command: string): (r: string)
    ensures |r| <= |command|
    decreases |command|
  {
    if command == "" then ""
    else if |command| >= 2 && command[0] == '&' && command[1] == '&' then ";" + Separated(command[2..])
    else if command[0] == '\n' then ";" + Separated(command[1..])
    else [command[0]] + Separated(command[1..])
  }

  function NonBlank(parts: seq<string>): seq<string> {
    if parts == [] then []
    else
      var part := TrimSpace(parts[0]);
      (if part == "" then [] else [part]) + NonBlank(parts[1..])
  }

  lemma {:induction false} NonBlankFit(parts: seq<string>, n: nat)
    requires forall p <- parts :: |p| <= n
    ensures forall p <- NonBlank(parts) :: p != "" && |p| <= n
  {
    hide TrimSpace;
    if parts != [] {
      NonBlankFit(parts[1..], n);
    }
  }

  function Commands(command: string): (parts: seq<string>)
    ensures forall p <- parts :: p != "" && |p| <= |command|
  {
    NonBlankFit(Text.Split(Separated(command), ';'), |command|);
    NonBlank(Text.Split(Separated(command), ';'))
  }

  lemma NonBlankOfAll(parts: seq<string>)
    ensures NonBlank(parts[0..]) == NonBlank(parts) && NonBlank(parts[|parts|..]) == []
  {
    assert parts[0..] == parts;
  }

  lemma NonBlankFrom(parts: seq<string>, i: nat)
    requires i < |parts|
    ensures NonBlank(parts[i..]) == (if TrimSpace(parts[i]) == "" then [] else [TrimSpace(parts[i])]) + NonBlank(parts[i + 1..])
  {
    hide TrimSpace;
    assert parts[i..][0] == parts[i] && parts[i..][1..] == parts[i + 1..];
  }

  method SplitCommands(command: string) returns (out: seq<string>)
    ensures out == Commands(command)
  {
    hide TrimSpace, Text.Split, Separated, NonBlank;
    var parts := Text.Split(Separated(command), ';');
    out := [];
    NonBlankOfAll(parts);
    for i := 0 to |parts|
      invariant out + NonBlank(parts[i..]) == NonBlank(parts)
    {
      NonBlankFrom(parts, i);
      var part := TrimSpace(parts[i]);
      if part != "" {
        out := out + [part];
      }
    }
  }

  // ---- fields ----

  /** The tokenizer's state: finished fields, the current one, the open quote, and
      whether the last rune was an unspent backslash. */
  datatype Lexer = Lexer(fields: seq<string>, current: string, quote: Option<char>, escaped: bool)

  const LEXER_START := Lexer([], "", None, false)

  predicate Blank(c: char) {
    c == ' ' || c == '\t' || c == '\r' || c == '\n'
  }

  function Flush(lexer: Lexer): Lexer {
    if lexer.current == "" then lexer else lexer.(fields := lexer.fields + [lexer.current], current := "")
  }

  function LexStep(lexer: Lexer, c: char): Lexer {
    if lexer.escaped then lexer.(current := lexer.current + [c], escaped := false)
    else if c == '\\' then lexer.(escaped := true)
    else if lexer.quote.Some? then
      if c == lexer.quote.value then lexer.(quote := None) else lexer.(current := lexer.current + [c])
    else if c == '\'' || c == '"' then lexer.(quote := Some(c))
    else if Blank(c) then Flush(lexer)
    else lexer.(current := lexer.current + [c])
  }

  function Lex(lexer: Lexer, input: string): Lexer
    decreases |input|
  {
    if input == "" then lexer else Lex(LexStep(lexer, input[0]), input[1..])
  }

  /** A trailing backslash stands for itself. */
  function Finish(lexer: Lexer): seq<string> {
    Flush(if lexer.escaped then lexer.(current := lexer.current + "\\") else lexer).fields
  }

  function Fields(input: string): seq<string> {
    Finish(Lex(LEXER_START, input))
  }

  method CommandFields(input: string) returns (fields: seq<string>)
    ensures fields == Fields(input)
  {
    fields := [];
    var current := "";
    var quote: Option<char> := None;
    var escaped := false;
    for i := 0 to |input|
      invariant Lex(LEXER_START, input) == Lex(Lexer(fields, current, quote, escaped), input[i..])
    {
      var c := input[i];
      assert input[i..][0] == c && input[i..][1..] == input[i + 1..];
      if escaped {
        current := current + [c];
        escaped := false;
      } else if c == '\\' {
        escaped := true;
      } else if quote.Some? {
        if c == quote.value {
          quote := None;
        } else {
          current := current + [c];
        }
      } else if c == '\'' || c == '"' {
        quote := Some(c);
      } else if c == ' ' || c == '\t' || c == '\r' || c == '\n' {
        if current != "" {
          fields := fields + [current];
          current := "";
        }
      } else {
        current := current + [c];
      }
    }
    if escaped {
      current := current + "\\";
    }
    if current != "" {
      fields := fields + [current];
    }
  }

  // ---- joining, and how long the fields are ----

  function Join(fields: seq<string>): string {
    if fields == [] then ""
    else if |fields| == 1 then fields[0]
    else fields[0] + " " + Join(fields[1..])
  }

  /** Every field with one rune for a separator. */
  ghost function Weight(fields: seq<string>): nat {
    if fields == [] then 0 else |fields[0]| + 1 + Weight(fields[1..])
  }

  lemma {:induction false} WeightAppend(fields: seq<string>, field: string)
    ensures Weight(fields + [field]) == Weight(fields) + |field| + 1
  {
    if fields == [] {
      assert fields + [field] == [field];
    } else {
      assert (fields + [field])[1..] == fields[1..] + [field];
      WeightAppend(fields[1..], field);
    }
  }

  lemma {:induction false} JoinLength(fields: seq<string>)
    requires fields != []
    ensures |Join(fields)| + 1 == Weight(fields)
  {
    if |fields| > 1 {
      JoinLength(fields[1..]);
    }
  }

  ghost predicate NoneEmpty(fields: seq<string>) {
    forall f <- fields :: f != ""
  }

  ghost function Held(lexer: Lexer): nat {
    Weight(lexer.fields) + |lexer.current| + if lexer.escaped then 1 else 0
  }

  lemma {:induction false} LexHolds(lexer: Lexer, input: string)
    requires NoneEmpty(lexer.fields)
    ensures NoneEmpty(Lex(lexer, input).fields)
    ensures Held(Lex(lexer, input)) <= Held(lexer) + |input|
    decreases |input|
  {
    if input != "" {
      var next := LexStep(lexer, input[0]);
      WeightAppend(lexer.fields, lexer.current);
      LexHolds(next, input[1..]);
    }
  }

  /** Fields are never empty, and together with their separators they are no longer than
      what they were split from. */
  lemma FieldsFit(input: string)
    ensures NoneEmpty(Fields(input))
    ensures |Join(Fields(input))| <= |input|
  {
    LexHolds(LEXER_START, input);
    var end := Lex(LEXER_START, input);
    WeightAppend(end.fields, end.current);
    WeightAppend(end.fields, end.current + "\\");
    if Fields(input) != [] {
      JoinLength(Fields(input));
    }
  }

  lemma {:induction false} WeightOfTail(fields: seq<string>, n: nat)
    requires n <= |fields|
    ensures Weight(fields[n..]) + n <= Weight(fields)
  {
    if n == 0 {
      assert fields[n..] == fields;
    } else {
      assert fields[n..] == fields[1..][n - 1..];
      WeightOfTail(fields[1..], n - 1);
    }
  }

  /** What `sh -c` hands back to the interpreter is strictly shorter than the command. */
  lemma TailIsShorter(input: string, skip: nat)
    requires 0 < skip < |Fields(input)|
    ensures |Join(Fields(input)[skip..])| < |input|
  {
    FieldsFit(input);
    JoinLength(Fields(input));
    JoinLength(Fields(input)[skip..]);
    WeightOfTail(Fields(input), skip);
  }

  // ---- writing fields so that they come back ----

  datatype Style = Bare | Escaped | Quoted(quote: char) | EscapedInside(quote: char)

  function Escape(field: string): string {
    if field == "" then "" else ['\\', field[0]] + Escape(field[1..])
  }

  function Encode(field: string, style: Style): string {
    match style
    case Bare => field
    case Escaped => Escape(field)
    case Quoted(q) => [q] + field + [q]
    case EscapedInside(q) => [q] + Escape(field) + [q]
  }

  /** Runes that stand for themselves outside quotes. */
  predicate Ordinary(c: char) {
    !Blank(c) && c != '\\' && c != '\'' && c != '"'
  }

  ghost predicate Encodable(field: string, style: Style) {
    && field != ""
    && (style.Bare? ==> forall c <- field :: Ordinary(c))
    && (style.Quoted? ==> style.quote in ['\'', '"'] && style.quote !in field && '\\' !in field)
    && (style.EscapedInside? ==> style.quote in ['\'', '"'])
  }

  function EncodeAll(fields: seq<string>, styles: seq<Style>): seq<string>
    requires |fields| == |styles|
  {
    if fields == [] then [] else [Encode(fields[0], styles[0])] + EncodeAll(fields[1..], styles[1..])
  }

  lemma {:induction false} LexConcat(lexer: Lexer, a: string, b: string)
    ensures Lex(lexer, a + b) == Lex(Lex(lexer, a), b)
    decreases |a|
  {
    if a == "" {
      assert a + b == b;
    } else {
      assert (a + b)[1..] == a[1..] + b;
      LexConcat(LexStep(lexer, a[0]), a[1..], b);
    }
  }

  lemma {:induction false} LexEscaped(lexer: Lexer, field: string)
    requires !lexer.escaped
    ensures Lex(lexer, Escape(field)) == lexer.(current := lexer.current + field)
    decreases |field|
  {
    if field == "" {
      assert lexer.current + field == lexer.current;
    } else {
      var c := field[0];
      var next := lexer.(current := lexer.current + [c]);
      LexConcat(lexer, ['\\', c], Escape(field[1..]));
      assert ['\\', c][1..] == [c] && [c][1..] == "";
      assert Lex(lexer, ['\\', c]) == Lex(lexer.(escaped := true), [c]) == Lex(next, "");
      LexEscaped(next, field[1..]);
      assert next.current + field[1..] == lexer.current + field;
    }
  }

  lemma {:induction false} LexBare(lexer: Lexer, field: string)
    requires !lexer.escaped && lexer.quote.None? && forall c <- field :: Ordinary(c)
    ensures Lex(lexer, field) == lexer.(current := lexer.current + field)
    decreases |field|
  {
    if field == "" {
      assert lexer.current + field == lexer.current;
    } else {
      assert field[0] in field && forall c <- field[1..] :: c in field;
      LexBare(lexer.(current := lexer.current + [field[0]]), field[1..]);
      assert lexer.current + [field[0]] + field[1..] == lexer.current + field;
    }
  }

  lemma {:induction false} LexInsideQuote(lexer: Lexer, field: string)
    requires !lexer.escaped && lexer.quote.Some? && lexer.quote.value !in field && '\\' !in field
    ensures Lex(lexer, field) == lexer.(current := lexer.current + field)
    decreases |field|
  {
    if field == "" {
      assert lexer.current + field == lexer.current;
    } else {
      assert field[0] in field && forall c <- field[1..] :: c in field;
      LexInsideQuote(lexer.(current := lexer.current + [field[0]]), field[1..]);
      assert lexer.current + [field[0]] + field[1..] == lexer.current + field;
    }
  }

  lemma LexOne(lexer: Lexer, c: char)
    ensures Lex(lexer, [c]) == LexStep(lexer, c)
  {
    assert [c][1..] == "";
  }

  lemma LexEncoded(lexer: Lexer, field: string, style: Style)
    requires !lexer.escaped && lexer.quote.None? && Encodable(field, style)
    ensures Lex(lexer, Encode(field, style)) == lexer.(current := lexer.current + field)
  {
    match style {
      case Bare => LexBare(lexer, field);
      case Escaped => LexEscaped(lexer, field);
      case Quoted(q) =>
        var open := lexer.(quote := Some(q));
        LexConcat(lexer, [q] + field, [q]);
        LexConcat(lexer, [q], field);
        LexOne(lexer, q);
        LexInsideQuote(open, field);
        LexOne(open.(current := lexer.current + field), q);
      case EscapedInside(q) =>
        var open := lexer.(quote := Some(q));
        LexConcat(lexer, [q] + Escape(field), [q]);
        LexConcat(lexer, [q], Escape(field));
        LexOne(lexer, q);
        LexEscaped(open, field);
        LexOne(open.(current := lexer.current + field), q);
    }
  }

  lemma {:induction false} LexEncodedFields(done: seq<string>, fields: seq<string>, styles: seq<Style>)
    requires |fields| == |styles| && forall i :: 0 <= i < |fields| ==> Encodable(fields[i], styles[i])
    ensures Finish(Lex(Lexer(done, "", None, false), Join(EncodeAll(fields, styles)))) == done + fields
    decreases |fields|
  {
    var start := Lexer(done, "", None, false);
    if fields != [] {
      var first := Encode(fields[0], styles[0]);
      LexEncoded(start, fields[0], styles[0]);
      assert "" + fields[0] == fields[0];
      if |fields| == 1 {
        assert done + [fields[0]] == done + fields;
      } else {
        var rest := Join(EncodeAll(fields[1..], styles[1..]));
        var mid := start.(current := fields[0]);
        LexConcat(start, first + " ", rest);
        LexConcat(start, first, " ");
        LexOne(mid, ' ');
        assert Lex(start, first + " ") == Lexer(done + [fields[0]], "", None, false);
        LexEncodedFields(done + [fields[0]], fields[1..], styles[1..]);
        assert done + [fields[0]] + fields[1..] == done + fields;
        assert Join(EncodeAll(fields, styles)) == first + " " + rest;
      }
    } else {
      assert done + fields == done;
    }
  }

  /** Tokenizing inverts quoting: any non-empty fields, each left bare when it has only ordinary
      runes, escaped rune by rune with or without quotes around it, or wrapped in a quote it does
      not contain, come back from one joined line. */
  lemma FieldsInvertEncoding(fields: seq<string>, styles: seq<Style>)
    requires |fields| == |styles| && forall i :: 0 <= i < |fields| ==> Encodable(fields[i], styles[i])
    ensures Fields(Join(EncodeAll(fields, styles))) == fields
  {
    LexEncodedFields([], fields, styles);
    assert [] + fields == fields;
  }

  // ---- blanks, and lines that end early ----

  /** The lexer between two runes of a word that is neither quoted nor escaped. */
  predicate Plain(lexer: Lexer) {
    !lexer.escaped && lexer.quote.None?
  }

  lemma {:induction false} LexBlanks(lexer: Lexer, gap: string)
    requires Plain(lexer) && gap != "" && forall i :: 0 <= i < |gap| ==> gap[i] in [' ', '\t', '\r', '\n']
    ensures Lex(lexer, gap) == Flush(lexer)
    decreases |gap|
  {
    if |gap| == 1 {
      assert gap == [gap[0]];
      LexOne(lexer, gap[0]);
    } else {
      LexBlanks(Flush(lexer), gap[1..]);
    }
  }

  /** Between words any run of spaces, tabs, carriage returns and newlines is one space, and
      before the first word it is nothing. */
  lemma AnyBlanksSeparate(before: string, gap: string, after: string)
    requires Plain(Lex(LEXER_START, before))
    requires gap != "" && forall i :: 0 <= i < |gap| ==> gap[i] in [' ', '\t', '\r', '\n']
    ensures Fields(before + gap + after) == Fields(before + " " + after)
    ensures Fields(gap + after) == Fields(after)
  {
    var mid := Lex(LEXER_START, before);
    LexConcat(LEXER_START, before + gap, after);
    LexConcat(LEXER_START, before, gap);
    LexConcat(LEXER_START, before + " ", after);
    LexConcat(LEXER_START, before, " ");
    LexBlanks(mid, gap);
    LexBlanks(mid, " ");
    LexConcat(LEXER_START, gap, after);
    LexBlanks(LEXER_START, gap);
  }

  /** After encoded fields the lexer is plain, so more words may follow. */
  lemma {:induction false} EncodedEndsPlain(lexer: Lexer, fields: seq<string>, styles: seq<Style>)
    requires |fields| == |styles| && forall i :: 0 <= i < |fields| ==> Encodable(fields[i], styles[i])
    requires Plain(lexer) && lexer.current == ""
    ensures var end := Lex(lexer, Join(EncodeAll(fields, styles)));
            && Plain(end)
            && (fields == [] ==> end == lexer)
            && (fields != [] ==> end.fields == lexer.fields + fields[..|fields| - 1] && end.current == fields[|fields| - 1])
    decreases |fields|
  {
    if fields != [] {
      var first := Encode(fields[0], styles[0]);
      LexEncoded(lexer, fields[0], styles[0]);
      assert "" + fields[0] == fields[0];
      if |fields| == 1 {
        assert lexer.fields + [] == lexer.fields;
      } else {
        var rest := Join(EncodeAll(fields[1..], styles[1..]));
        var mid := lexer.(current := fields[0]);
        EncodedEndsPlain(Flush(mid), fields[1..], styles[1..]);
        assert Join(EncodeAll(fields, styles)) == first + " " + rest;
        hide Join, EncodeAll, Encode, Encodable;
        LexConcat(lexer, first + " ", rest);
        LexConcat(lexer, first, " ");
        LexOne(mid, ' ');
        hide Lex;
        FirstThenRest(lexer.fields, fields);
      }
    }
  }

  lemma FirstThenRest(done: seq<string>, fields: seq<string>)
    requires |fields| > 1
    ensures done + [fields[0]] + fields[1..][..|fields| - 2] == done + fields[..|fields| - 1]
  {
  }

  /** A backslash at the very end stands for itself. */
  lemma TrailingBackslash(fields: seq<string>, styles: seq<Style>)
    requires fields != [] && |fields| == |styles| && forall i :: 0 <= i < |fields| ==> Encodable(fields[i], styles[i])
    ensures Fields(Join(EncodeAll(fields, styles)) + "\\") == fields[..|fields| - 1] + [fields[|fields| - 1] + "\\"]
  {
    var line := Join(EncodeAll(fields, styles));
    EncodedEndsPlain(LEXER_START, fields, styles);
    LexConcat(LEXER_START, line, "\\");
    LexOne(Lex(LEXER_START, line), '\\');
    assert [] + fields[..|fields| - 1] == fields[..|fields| - 1];
  }

  /** A quote that is not closed runs to the end of the line. */
  lemma UnclosedQuote(fields: seq<string>, styles: seq<Style>, q: char, text: string)
    requires |fields| == |styles| && forall i :: 0 <= i < |fields| ==> Encodable(fields[i], styles[i])
    requires q in ['\'', '"'] && text != "" && q !in text && '\\' !in text && fields != []
    ensures Fields(Join(EncodeAll(fields, styles)) + " " + [q] + text) == fields + [text]
  {
    var line := Join(EncodeAll(fields, styles)) + " " + [q];
    QuoteOpens(fields, styles, q);
    LexConcat(LEXER_START, line, text);
    LexInsideQuote(Lexer(fields, "", Some(q), false), text);
    hide Lex, Join, EncodeAll;
    assert "" + text == text;
  }

  lemma QuoteOpens(fields: seq<string>, styles: seq<Style>, q: char)
    requires |fields| == |styles| && forall i :: 0 <= i < |fields| ==> Encodable(fields[i], styles[i])
    requires q in ['\'', '"'] && fields != []
    ensures Lex(LEXER_START, Join(EncodeAll(fields, styles)) + " " + [q]) == Lexer(fields, "", Some(q), false)
  {
    var line := Join(EncodeAll(fields, styles));
    EncodedEndsPlain(LEXER_START, fields, styles);
    var end := Lex(LEXER_START, line);
    LexConcat(LEXER_START, line + " ", [q]);
    LexConcat(LEXER_START, line, " ");
    LexOne(end, ' ');
    LexOne(Flush(end), q);
    hide Lex, Join, EncodeAll, Encodable;
    assert [] + fields[..|fields| - 1] + [fields[|fields| - 1]] == fields;
  }
}
