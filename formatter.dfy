/**
 * The text formatters of formatter.go: the terminal line of
 * `ThemedTerminalFormat` with its padded level column and sorted
 * `key="value"` entries, the key-quoting rule `needsQuote`, and
 * `SimpleFormat`'s optional `[file:line]` suffix. Output bytes are modelled
 * as characters, one per byte.
 */
module Formatter {
  import opened Text
  import opened Levels
  import opened Records

  /** `unicode.IsPrint`: on ASCII the graphic characters and the space;
      beyond ASCII the Unicode tables are the parameter `printable`. */
  predicate IsPrint(c: char, printable: char -> bool) {
    if (c as int) < 128 then ' ' <= c <= '~' else printable(c)
  }

  /** `needsQuote`. */
  predicate NeedsQuote(c: char, printable: char -> bool) {
    c == ' ' || c == '"' || c == '\\' || c == '=' || !IsPrint(c, printable)
  }

  /** On ASCII a character needs quoting exactly when it is the space, `"`,
      `\`, `=` or a control character; letters, digits and the common
      punctuation of keys never do. */
  lemma NeedsQuoteAscii(c: char, printable: char -> bool)
    requires (c as int) < 128
    ensures NeedsQuote(c, printable) <==>
              c == ' ' || c == '"' || c == '\\' || c == '=' || (c as int) < 32 || (c as int) == 127
    ensures 'a' <= c <= 'z' || 'A' <= c <= 'Z' || IsDigit(c) || c == '_' || c == '-' || c == '.' ==>
              !NeedsQuote(c, printable)
  {
  }

  /** The key test of `ThemedTerminalFormat`: empty, or some character needs quoting. */
  predicate KeyNeedsQuotes(k: string, printable: char -> bool) {
    IndexFunc(k, c => NeedsQuote(c, printable)) >= 0 || k == ""
  }

  lemma KeyQuoting(k: string, printable: char -> bool)
    ensures KeyNeedsQuotes(k, printable) <==>
              k == "" || exists i :: 0 <= i < |k| && NeedsQuote(k[i], printable)
  {
    var r := IndexFunc(k, c => NeedsQuote(c, printable));
    if r >= 0 {
      assert NeedsQuote(k[r], printable);
    }
  }

  function QuotedKey(k: string, printable: char -> bool): string {
    if KeyNeedsQuotes(k, printable) then "\"" + k + "\"" else k
  }

  /** One context entry: the key, quoted when needed, `=`, and the value's
      `%+v` text (`show`) in double quotes, not escaped. */
  function Entry(k: string, v: Value, show: Value -> string, printable: char -> bool): string {
    QuotedKey(k, printable) + "=\"" + show(v) + "\""
  }

  /** An entry opens with a double quote exactly when its key needs quoting;
      an unquoted key holds no space and no `=`, so the first `=` of the
      entry ends the key. */
  lemma EntryShape(k: string, v: Value, show: Value -> string, printable: char -> bool)
    ensures var e := Entry(k, v, show, printable);
      && |e| >= 3 && e[|e| - 1] == '"'
      && (e[0] == '"' <==> KeyNeedsQuotes(k, printable))
      && (!KeyNeedsQuotes(k, printable) ==> ' ' !in k && '=' !in k && e[|k|] == '=' && e[..|k|] == k)
  {
    KeyQuoting(k, printable);
    if !KeyNeedsQuotes(k, printable) {
      assert !NeedsQuote(k[0], printable);
      forall i | 0 <= i < |k| ensures k[i] != ' ' && k[i] != '=' {
        assert !NeedsQuote(k[i], printable);
      }
    }
  }

  /** `parts` separated by single spaces. */
  function Join(parts: seq<string>): string
    decreases |parts|
  {
    if parts == [] then ""
    else if |parts| == 1 then parts[0]
    else Join(parts[..|parts| - 1]) + " " + parts[|parts| - 1]
  }

  /** Read from the front: the first part, one space, and the rest joined. */
  lemma {:induction false} JoinFront(parts: seq<string>)
    requires |parts| >= 2
    ensures Join(parts) == parts[0] + " " + Join(parts[1..])
    decreases |parts|
  {
    var n := |parts|;
    var rest := parts[1..];
    if n > 2 {
      var init := parts[..n - 1];
      JoinFront(init);
      assert init[1..] == rest[..|rest| - 1];
      assert rest[|rest| - 1] == parts[n - 1];
    } else {
      assert parts[..n - 1] == [parts[0]];
    }
  }

  /** Joining one more part appends a space and that part. */
  lemma JoinStep(parts: seq<string>, i: nat)
    requires i < |parts|
    ensures i == 0 ==> Join(parts[..1]) == parts[0]
    ensures i > 0 ==> Join(parts[..i + 1]) == Join(parts[..i]) + " " + parts[i]
  {
    assert parts[..i + 1][..i] == parts[..i];
  }

  /** The joined text is empty only for no parts, and ends like the last part. */
  lemma {:induction false} JoinEnd(parts: seq<string>)
    requires forall j :: 0 <= j < |parts| ==> parts[j] != ""
    ensures Join(parts) == "" <==> parts == []
    ensures parts != [] ==> Join(parts)[|Join(parts)| - 1] == parts[|parts| - 1][|parts[|parts| - 1]| - 1]
    decreases |parts|
  {
    if |parts| > 1 {
      JoinEnd(parts[..|parts| - 1]);
    }
  }

  /** The entry of each key, in order. */
  function EntryTexts(keys: seq<string>, ctx: Ctx, show: Value -> string, printable: char -> bool): (r: seq<string>)
    requires forall i :: 0 <= i < |keys| ==> keys[i] in ctx
    ensures |r| == |keys|
    ensures forall i :: 0 <= i < |keys| ==> r[i] == Entry(keys[i], ctx[keys[i]], show, printable)
  {
    seq(|keys|, i requires 0 <= i < |keys| => Entry(keys[i], ctx[keys[i]], show, printable))
  }

  /** The entries of `keys` in order, separated by single spaces. */
  function Entries(keys: seq<string>, ctx: Ctx, show: Value -> string, printable: char -> bool): string
    requires forall i :: 0 <= i < |keys| ==> keys[i] in ctx
  {
    Join(EntryTexts(keys, ctx, show, printable))
  }

  /** Entries are empty only without keys, and never end with a space. */
  lemma EntriesEnd(keys: seq<string>, ctx: Ctx, show: Value -> string, printable: char -> bool)
    requires forall i :: 0 <= i < |keys| ==> keys[i] in ctx
    ensures var s := Entries(keys, ctx, show, printable);
      (s == "" <==> keys == []) && (keys != [] ==> s[|s| - 1] == '"')
  {
    var parts := EntryTexts(keys, ctx, show, printable);
    forall j | 0 <= j < |parts| ensures parts[j] != "" && parts[j][|parts[j]| - 1] == '"' {
      EntryShape(keys[j], ctx[keys[j]], show, printable);
    }
    JoinEnd(parts);
  }

  /** Read from the front: the first entry, one space, and the rest. */
  lemma EntriesFront(keys: seq<string>, ctx: Ctx, show: Value -> string, printable: char -> bool)
    requires forall i :: 0 <= i < |keys| ==> keys[i] in ctx
    requires |keys| >= 2
    ensures Entries(keys, ctx, show, printable) ==
              Entry(keys[0], ctx[keys[0]], show, printable) + " " + Entries(keys[1..], ctx, show, printable)
  {
    var parts := EntryTexts(keys, ctx, show, printable);
    JoinFront(parts);
    assert parts[1..] == EntryTexts(keys[1..], ctx, show, printable);
  }

  /** The bracketed context: empty without entries. */
  function ContextPart(keys: seq<string>, ctx: Ctx, show: Value -> string, printable: char -> bool): string
    requires forall i :: 0 <= i < |keys| ==> keys[i] in ctx
  {
    if keys == [] then "" else " [" + Entries(keys, ctx, show, printable) + "]"
  }

  /** `bytes.Repeat([]byte(" "), n)`. */
  function Spaces(n: nat): (s: string)
    ensures |s| == n && forall i :: 0 <= i < n ==> s[i] == ' '
  {
    if n == 0 then "" else Spaces(n - 1) + " "
  }

  /** The padding count must not be negative: `bytes.Repeat` panics on it. */
  predicate PadFits(t: LevelTable, level: Level) {
    |LevelString(t, level)| <= t.levelNameMaxLength + 2
  }

  /** The level column: coloured name, padding to the longest name plus two, one space. */
  function LevelColumn(t: LevelTable, theme: Theme, level: Level): string
    requires PadFits(t, level)
  {
    var name := LevelString(t, level);
    ForLevel(theme, level)(name) + Spaces(t.levelNameMaxLength - |name| + 2) + " "
  }

  /** The line `ThemedTerminalFormat` produces for a record: the level
      column, the message, the context keys in ascending order with their
      values inside " [" and "]", and a newline. */
  ghost function TerminalLine(t: LevelTable, theme: Theme, r: Record, show: Value -> string,
                              printable: char -> bool): (line: string)
    requires PadFits(t, r.level)
    ensures |line| > 0 && line[|line| - 1] == '\n'
  {
    LevelColumn(t, theme, r.level) + r.message +
    ContextPart(SortedKeys(r.context.Keys), r.context, show, printable) + "\n"
  }

  /** Every registered non-empty name leaves at least two padding spaces. */
  lemma RegisteredPadAtLeastTwo(t: LevelTable, level: Level)
    requires ValidTable(t) && level in t.level2Name && t.level2Name[level] != ""
    ensures PadFits(t, level)
    ensures t.levelNameMaxLength - |LevelString(t, level)| + 2 >= 2
  {
    LevelStringRegistered(t, level);
    assert t.level2Name[level] in t.name2Level;
  }

  /** With the built-in levels, the unregistered level 1000 prints as
      "Level(1000)", longer than the longest name plus two, so formatting it
      would panic. */
  lemma UnregisteredLevelTooLong()
    ensures !PadFits(InitTable(EmptyTable), 1000)
  {
    BuiltinsRegistered();
    LongLevelText(InitTable(EmptyTable));
  }

  /** Level 1000 is "Level(1000)" in any table without an entry for it, too
      long when the longest name has 8 characters. */
  lemma LongLevelText(b: LevelTable)
    requires 1000 !in b.level2Name && b.levelNameMaxLength == 8
    ensures |LevelString(b, 1000)| == 11 && !PadFits(b, 1000)
  {
    assert Decimal(1000) == Decimal(100) + [DigitChar(0)];
    assert Decimal(100) == Decimal(10) + [DigitChar(0)];
    assert Decimal(10) == Decimal(1) + [DigitChar(0)];
  }

  /** Without colours every level column has the same width, so messages line up. */
  lemma ColumnsAlign(t: LevelTable, level: Level)
    requires PadFits(t, level)
    ensures |LevelColumn(t, NoColorTheme(), level)| == t.levelNameMaxLength + 3
  {
    var name := LevelString(t, level);
    assert ForLevel(NoColorTheme(), level)(name) == name;
  }

  /** The brackets appear exactly when the context is non-empty, and then
      enclose the sorted entries. */
  lemma ContextBrackets(ctx: Ctx, show: Value -> string, printable: char -> bool)
    ensures var keys := SortedKeys(ctx.Keys);
      var part := ContextPart(keys, ctx, show, printable);
      && (part == "" <==> |ctx| == 0)
      && (|ctx| > 0 ==> |part| >= 4 && part[..2] == " [" && part[|part| - 1] == ']' &&
                        part[2..|part| - 1] == Entries(keys, ctx, show, printable))
  {
    var keys := SortedKeys(ctx.Keys);
    assert |keys| == |ctx.Keys| == |ctx|;
    if |ctx| > 0 {
      EntriesEnd(keys, ctx, show, printable);
      Bracketed(Entries(keys, ctx, show, printable));
    }
  }

  lemma Bracketed(e: string)
    ensures var p := " [" + e + "]";
      |p| == |e| + 3 && p[..2] == " [" && p[|p| - 1] == ']' && p[2..|p| - 1] == e
  {
    var p := " [" + e + "]";
    assert p[2..|p| - 1] == e;
  }

  /** The keys of a context, in the map's iteration order. */
  method CollectKeys(ctx: Ctx) returns (keys: seq<string>)
    ensures Distinct(keys)
    ensures forall k :: k in keys <==> k in ctx
  {
    keys := [];
    var rest := ctx.Keys;
    while rest != {}
      invariant rest <= ctx.Keys && Distinct(keys)
      invariant forall k :: k in keys <==> k in ctx && k !in rest
      decreases |rest|
    {
      var k :| k in rest;
      keys := keys + [k];
      rest := rest - {k};
    }
  }

  /** Sorting the collected keys gives the ascending sequence of the
      context's keys, whatever order the map iteration produced. */
  lemma SortedCollectedKeys(keys: seq<string>, ctx: Ctx)
    requires Distinct(keys) && forall k :: k in keys <==> k in ctx
    ensures SortStrings(keys) == SortedKeys(ctx.Keys)
  {
    var sorted := SortStrings(keys);
    DistinctPermutation(keys, sorted);
    DistinctSortedIsStrict(sorted);
    forall x ensures x in sorted <==> x in SortedKeys(ctx.Keys) {
      assert x in sorted <==> x in multiset(sorted);
      assert x in keys <==> x in multiset(keys);
    }
    StrictlySortedUnique(sorted, SortedKeys(ctx.Keys));
  }

  /** The writes of one entry. */
  method WriteEntry(k: string, v: Value, show: Value -> string, printable: char -> bool)
    returns (buff: string)
    ensures buff == Entry(k, v, show, printable)
  {
    buff := "";
    var keyQuote := IndexFunc(k, c => NeedsQuote(c, printable)) >= 0 || k == "";
    if keyQuote {
      buff := buff + "\"";
    }
    buff := buff + k;
    if keyQuote {
      buff := buff + "\"";
    }
    buff := buff + "=";
    buff := buff + "\"";
    buff := buff + show(v);
    buff := buff + "\"";
  }

  /** The entries of the first i + 1 keys extend those of the first i. */
  lemma EntriesStep(keys: seq<string>, ctx: Ctx, show: Value -> string, printable: char -> bool, i: nat)
    requires forall j :: 0 <= j < |keys| ==> keys[j] in ctx
    requires i < |keys|
    ensures i == 0 ==> Entries(keys[..1], ctx, show, printable) == Entry(keys[0], ctx[keys[0]], show, printable)
    ensures i > 0 ==> Entries(keys[..i + 1], ctx, show, printable) ==
                      Entries(keys[..i], ctx, show, printable) + " " + Entry(keys[i], ctx[keys[i]], show, printable)
  {
    var parts := EntryTexts(keys, ctx, show, printable);
    JoinStep(parts, i);
    assert parts[..i + 1] == EntryTexts(keys[..i + 1], ctx, show, printable);
    assert parts[..i] == EntryTexts(keys[..i], ctx, show, printable);
  }

  /** What the context loop has written after `i` keys: the opening, the
      first `i` entries, and the separating space if more keys follow. */
  ghost predicate ContextWritten(keys: seq<string>, ctx: Ctx, show: Value -> string, printable: char -> bool,
                                 open: string, buff: string, i: nat)
    requires forall j :: 0 <= j < |keys| ==> keys[j] in ctx
    requires i <= |keys|
  {
    && (i == 0 ==> buff == open)
    && (0 < i < |keys| ==> buff == open + Entries(keys[..i], ctx, show, printable) + " ")
    && (0 < i == |keys| ==> buff == open + Entries(keys[..i], ctx, show, printable))
  }

  /** One iteration of the context loop: after the entry for key `i` the
      buffer holds the opening and the first `i + 1` entries. */
  lemma ContextWrittenStep(keys: seq<string>, ctx: Ctx, show: Value -> string, printable: char -> bool,
                           open: string, buff: string, i: nat)
    requires forall j :: 0 <= j < |keys| ==> keys[j] in ctx
    requires i < |keys| && ContextWritten(keys, ctx, show, printable, open, buff, i)
    ensures buff + Entry(keys[i], ctx[keys[i]], show, printable) ==
            open + Entries(keys[..i + 1], ctx, show, printable)
  {
    EntriesStep(keys, ctx, show, printable, i);
    if i > 0 {
      AppendAfterSpace(open, Entries(keys[..i], ctx, show, printable), buff,
                       Entry(keys[i], ctx[keys[i]], show, printable));
    }
  }

  lemma AppendAfterSpace(open: string, prev: string, buff: string, entry: string)
    requires buff == open + prev + " "
    ensures buff + entry == open + (prev + " " + entry)
  {
  }

  /** The writes of the context part: " [", the entries with a space after
      every one but the last, then "]"; nothing for no keys. */
  method WriteContext(keys: seq<string>, ctx: Ctx, show: Value -> string, printable: char -> bool)
    returns (buff: string)
    requires forall j :: 0 <= j < |keys| ==> keys[j] in ctx
    ensures buff == ContextPart(keys, ctx, show, printable)
  {
    buff := "";
    if |keys| > 0 {
      buff := buff + " [";
    }
    ghost var open := buff;
    var i := 0;
    while i < |keys|
      invariant 0 <= i <= |keys|
      invariant ContextWritten(keys, ctx, show, printable, open, buff, i)
    {
      var entry := WriteEntry(keys[i], ctx[keys[i]], show, printable);
      ContextWrittenStep(keys, ctx, show, printable, open, buff, i);
      buff := buff + entry;
      if i < |keys| - 1 {
        buff := buff + " ";
      }
      i := i + 1;
    }
    if |keys| > 0 {
      assert keys[..i] == keys;
      assert open == " [";
      buff := buff + "]";
    }
  }

  /** `ThemedTerminalFormat`'s formatter function, writing into a buffer. */
  method ThemedTerminalFormat(t: LevelTable, theme: Theme, record: Record, show: Value -> string,
                              printable: char -> bool)
    returns (buff: string)
    requires PadFits(t, record.level)
    ensures buff == TerminalLine(t, theme, record, show, printable)
  {
    var levelColor := ForLevel(theme, record.level);
    var levelName := LevelString(t, record.level);
    buff := levelColor(levelName);
    var padSpaces := t.levelNameMaxLength - |levelName| + 2;
    buff := buff + Spaces(padSpaces);
    buff := buff + " ";
    buff := buff + record.message;
    assert buff == LevelColumn(t, theme, record.level) + record.message;

    var ctx := record.context;
    var keys := CollectKeys(ctx);
    SortedCollectedKeys(keys, ctx);
    keys := SortStrings(keys);

    var part := WriteContext(keys, ctx, show, printable);
    assert part == ContextPart(SortedKeys(ctx.Keys), ctx, show, printable);
    buff := buff + part;
    buff := buff + "\n";
  }

  // ---------------------------------------------------------------------
  // SimpleFormat

  /** The `[file:line]` suffix, present only for a known file and a positive line. */
  function Location(file: string, line: int): string {
    if file != "" && line > 0 then "[" + file + ":" + Decimal(line) + "]" else ""
  }

  /** `SimpleFormat`'s formatter function; `timeText` is the record's time in
      the default time format, `file` and `line` the caller's position. */
  function SimpleFormat(timeText: string, record: Record, file: string, line: int): (out: string)
    ensures |out| > 0 && out[|out| - 1] == '\n'
  {
    timeText + " " + record.message + " " + Location(file, line) + "\n"
  }

  /** The location suffix is non-empty exactly for a non-empty file and a
      positive line; it then names the file and reads back as the line. */
  lemma LocationShape(file: string, line: int)
    ensures var rest := Location(file, line);
      && (rest != "" <==> file != "" && line > 0)
      && (rest != "" ==> rest[0] == '[' && rest[|rest| - 1] == ']' &&
                         rest[1..|file| + 1] == file && rest[|file| + 1] == ':' &&
                         (forall i :: |file| + 2 <= i < |rest| - 1 ==> IsDigit(rest[i])) &&
                         DigitsValue(rest[|file| + 2..|rest| - 1]) == line)
  {
    var rest := Location(file, line);
    if file != "" && line > 0 {
      DecimalValue(line);
      assert rest[|file| + 2..|rest| - 1] == Decimal(line);
    }
  }

  /** The suffix appears exactly for a non-empty file and a positive line;
      it then names the file and reads back as the line number. */
  lemma SimpleFormatLocation(timeText: string, record: Record, file: string, line: int)
    ensures var out := SimpleFormat(timeText, record, file, line);
      var prefix := timeText + " " + record.message + " ";
      && |prefix| < |out| && out[..|prefix|] == prefix
      && var rest := out[|prefix|..|out| - 1];
      && (rest != "" <==> file != "" && line > 0)
      && (rest != "" ==> rest[0] == '[' && rest[|rest| - 1] == ']' &&
                         rest[1..|file| + 1] == file && rest[|file| + 1] == ':' &&
                         (forall i :: |file| + 2 <= i < |rest| - 1 ==> IsDigit(rest[i])) &&
                         DigitsValue(rest[|file| + 2..|rest| - 1]) == line)
  {
    var out := SimpleFormat(timeText, record, file, line);
    var prefix := timeText + " " + record.message + " ";
    assert out == prefix + Location(file, line) + "\n";
    assert out[..|prefix|] == prefix;
    assert out[|prefix|..|out| - 1] == Location(file, line);
    LocationShape(file, line);
  }
}
