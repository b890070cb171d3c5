/**
 * The `Config` key/value store (src/config/config.h, src/config/config.cpp): a
 * line-oriented `key=value` file parsed into a map, looked up with defaults, updated
 * with `set` and written back. The file system is a `FileStore` object holding the
 * text of every readable file; whether a file can be opened for writing is a parameter.
 */
module Configuration {
  import opened Wrappers

  /** Index of the first occurrence of `c` in `s` (`std::string::find`). */
  function Find(s: string, c: char): (r: Option<nat>)
    ensures r.Some? ==> r.value < |s| && s[r.value] == c && forall i | 0 <= i < r.value :: s[i] != c
    ensures r.None? ==> forall i | 0 <= i < |s| :: s[i] != c
  {
    if |s| == 0 then None
    else if s[0] == c then Some(0)
    else match Find(s[1..], c) {
      case None => None
      case Some(i) => Some(i + 1)
    }
  }

  /** The first occurrence is unique: a prefix free of `c` followed by `c` locates it. */
  lemma FindAfter(a: string, c: char, b: string)
    requires forall i | 0 <= i < |a| :: a[i] != c
    ensures Find(a + [c] + b, c) == Some(|a|)
  {
    var s := a + [c] + b;
    assert s[|a|] == c;
    match Find(s, c) {
      case None =>
      case Some(p) =>
        if p < |a| {
          assert s[p] == a[p];
        }
    }
  }

  /**
   * The lines `std::getline` extracts from a text: pieces separated by '\n', where a
   * final '\n' does not start another line and an empty text has none.
   */
  function Lines(text: string): seq<string>
    decreases |text|
  {
    if |text| == 0 then []
    else match Find(text, '\n') {
      case None => [text]
      case Some(p) => [text[..p]] + Lines(text[p + 1..])
    }
  }

  /** Each line followed by '\n', as `operator<<` writes them. */
  function Unlines(lines: seq<string>): string
  {
    if |lines| == 0 then "" else lines[0] + "\n" + Unlines(lines[1..])
  }

  predicate NoNewline(s: string)
  {
    forall i | 0 <= i < |s| :: s[i] != '\n'
  }

  lemma {:induction false} UnlinesAppend(lines: seq<string>, line: string)
    ensures Unlines(lines + [line]) == Unlines(lines) + line + "\n"
  {
    if |lines| > 0 {
      assert (lines + [line])[1..] == lines[1..] + [line];
      UnlinesAppend(lines[1..], line);
    }
  }

  /** A line free of '\n' followed by '\n' is read as the first line, and reading goes on after it. */
  lemma LinesCons(line: string, rest: string)
    requires NoNewline(line)
    ensures Lines(line + "\n" + rest) == [line] + Lines(rest)
  {
    var text := line + "\n" + rest;
    assert text == line + ['\n'] + rest;
    FindAfter(line, '\n', rest);
    assert text[..|line|] == line;
    assert text[|line| + 1..] == rest;
  }

  /** Reading back what was written line by line gives the same lines, when none holds a '\n'. */
  lemma {:induction false} LinesUnlines(lines: seq<string>)
    requires forall i | 0 <= i < |lines| :: NoNewline(lines[i])
    ensures Lines(Unlines(lines)) == lines
  {
    if |lines| > 0 {
      var rest := Unlines(lines[1..]);
      assert Unlines(lines) == lines[0] + "\n" + rest;
      LinesCons(lines[0], rest);
      LinesUnlines(lines[1..]);
      assert lines == [lines[0]] + lines[1..];
    }
  }

  datatype Entry = Entry(key: string, value: string)

  /** Lines 31-38 of config.cpp for one line: empty and '#' lines, and lines without '=', give nothing. */
  function ParseLine(line: string): (e: Option<Entry>)
    ensures e.Some? ==> |line| > 0 && line[0] != '#'
    ensures e.Some? ==> line == e.value.key + "=" + e.value.value && forall i | 0 <= i < |e.value.key| :: e.value.key[i] != '='
  {
    if |line| == 0 || line[0] == '#' then None
    else match Find(line, '=') {
      case None => None
      case Some(pos) =>
        assert line == line[..pos] + "=" + line[pos + 1..];
        Some(Entry(line[..pos], line[pos + 1..]))
    }
  }

  /** The entry a `key=value` line yields, for a key that the line format can carry. */
  lemma ParseEntryLine(key: string, value: string)
    requires forall i | 0 <= i < |key| :: key[i] != '='
    requires |key| > 0 ==> key[0] != '#'
    ensures ParseLine(key + "=" + value) == Some(Entry(key, value))
  {
    var line := key + "=" + value;
    FindAfter(key, '=', value);
    assert line[..|key|] == key;
    assert line[|key| + 1..] == value;
  }

  /** A line that is empty or a comment. */
  predicate Skipped(line: string)
  {
    |line| == 0 || line[0] == '#'
  }

  function Apply(values: map<string, string>, line: string): map<string, string>
  {
    match ParseLine(line) {
      case None => values
      case Some(e) => values[e.key := e.value]
    }
  }

  /** The map `load` builds from a sequence of lines, starting from an empty map. */
  function Parse(lines: seq<string>): map<string, string>
  {
    if |lines| == 0 then map[] else Apply(Parse(lines[..|lines| - 1]), lines[|lines| - 1])
  }

  lemma ParseStep(lines: seq<string>, i: nat)
    requires i < |lines|
    ensures Parse(lines[..i + 1]) == Apply(Parse(lines[..i]), lines[i])
  {
    assert lines[..i + 1][..i] == lines[..i];
  }

  predicate Defines(line: string, key: string)
  {
    ParseLine(line).Some? && ParseLine(line).value.key == key
  }

  /** Last occurrence wins: the value of a key is the one on the last line that defines it. */
  lemma {:induction false} ParseLastWins(lines: seq<string>, i: nat, key: string, value: string)
    requires i < |lines| && ParseLine(lines[i]) == Some(Entry(key, value))
    requires forall j | i < j < |lines| :: !Defines(lines[j], key)
    ensures key in Parse(lines) && Parse(lines)[key] == value
  {
    var init := lines[..|lines| - 1];
    if i < |lines| - 1 {
      forall j | i < j < |init|
        ensures !Defines(init[j], key)
      {
        assert init[j] == lines[j];
      }
      ParseLastWins(init, i, key, value);
      assert !Defines(lines[|lines| - 1], key);
    }
  }

  /** Every stored pair comes from some line of the file. */
  lemma {:induction false} ParseFromLines(lines: seq<string>, key: string)
    requires key in Parse(lines)
    ensures exists i | 0 <= i < |lines| :: ParseLine(lines[i]) == Some(Entry(key, Parse(lines)[key]))
  {
    var init := lines[..|lines| - 1];
    if !Defines(lines[|lines| - 1], key) {
      ParseFromLines(init, key);
      var i :| 0 <= i < |init| && ParseLine(init[i]) == Some(Entry(key, Parse(init)[key]));
      assert lines[i] == init[i];
    } else {
      assert ParseLine(lines[|lines| - 1]) == Some(Entry(key, Parse(lines)[key]));
    }
  }

  /** Empty and comment lines contribute nothing, wherever they stand. */
  lemma {:induction false} SkippedLineIgnored(before: seq<string>, line: string, after: seq<string>)
    requires Skipped(line)
    ensures Parse(before + [line] + after) == Parse(before + after)
    decreases |after|
  {
    if |after| == 0 {
      assert before + [line] + after == before + [line];
      assert (before + [line])[..|before|] == before;
      assert before + after == before;
    } else {
      var init := after[..|after| - 1];
      SkippedLineIgnored(before, line, init);
      assert (before + [line] + after)[..|before| + |after|] == before + [line] + init;
      assert (before + after)[..|before| + |after| - 1] == before + init;
    }
  }

  /** The header `save` writes: a comment line, then an empty line. */
  const HeaderLines: seq<string> := ["# TriggerBot Configuration", ""]

  /** An order listing every key of `values` exactly once: one iteration order of the unordered map. */
  predicate KeyOrder(order: seq<string>, values: map<string, string>)
  {
    (forall i, j | 0 <= i < j < |order| :: order[i] != order[j])
    && (forall i | 0 <= i < |order| :: order[i] in values)
    && (forall k | k in values :: k in order)
  }

  function EntryLines(values: map<string, string>, order: seq<string>): (lines: seq<string>)
    requires forall i | 0 <= i < |order| :: order[i] in values
    ensures |lines| == |order|
  {
    seq(|order|, i requires 0 <= i < |order| => order[i] + "=" + values[order[i]])
  }

  /** The text `save` writes when the map is visited in `order` (config.cpp:62-65). */
  function SavedText(values: map<string, string>, order: seq<string>): string
    requires forall i | 0 <= i < |order| :: order[i] in values
  {
    Unlines(HeaderLines + EntryLines(values, order))
  }

  /** Keys and values that survive being written as lines and read back. */
  predicate Storable(values: map<string, string>)
  {
    forall k | k in values ::
      (forall i | 0 <= i < |k| :: k[i] != '=') && (|k| > 0 ==> k[0] != '#') && NoNewline(k) && NoNewline(values[k])
  }

  lemma EntryLineNoNewline(key: string, value: string)
    requires NoNewline(key) && NoNewline(value)
    ensures NoNewline(key + "=" + value)
  {
    var line := key + "=" + value;
    forall i | 0 <= i < |line|
      ensures line[i] != '\n'
    {
      if i < |key| {
        assert line[i] == key[i];
      } else if i > |key| {
        assert line[i] == value[i - |key| - 1];
      }
    }
  }

  lemma OrderedMapSnoc(values: map<string, string>, init: seq<string>, last: string)
    requires last in values
    ensures (map k | k in init + [last] && k in values :: values[k]) == (map k | k in init && k in values :: values[k])[last := values[last]]
  {
  }

  lemma EntryLinesSnoc(values: map<string, string>, order: seq<string>)
    requires |order| > 0 && forall i | 0 <= i < |order| :: order[i] in values
    ensures EntryLines(values, order)
      == EntryLines(values, order[..|order| - 1]) + [order[|order| - 1] + "=" + values[order[|order| - 1]]]
  {
  }

  lemma ParseSnoc(lines: seq<string>, line: string)
    ensures Parse(lines + [line]) == Apply(Parse(lines), line)
  {
    assert (lines + [line])[..|lines|] == lines;
  }

  /** The line `save` writes for a stored key reads back as that key and its value. */
  lemma StoredEntryParses(values: map<string, string>, key: string)
    requires Storable(values) && key in values
    ensures ParseLine(key + "=" + values[key]) == Some(Entry(key, values[key]))
  {
    ParseEntryLine(key, values[key]);
  }

  /** The line `save` writes for a stored key holds no '\n'. */
  lemma StoredEntryOneLine(values: map<string, string>, key: string)
    requires Storable(values) && key in values
    ensures NoNewline(key + "=" + values[key])
  {
    EntryLineNoNewline(key, values[key]);
  }

  /** Parsing the entry lines of distinct keys gives back exactly those keys with their values. */
  lemma {:induction false} ParseEntryLines(values: map<string, string>, order: seq<string>)
    requires Storable(values)
    requires forall i | 0 <= i < |order| :: order[i] in values
    ensures Parse(EntryLines(values, order)) == map k | k in order && k in values :: values[k]
  {
    if |order| > 0 {
      var init := order[..|order| - 1];
      var last := order[|order| - 1];
      ParseEntryLines(values, init);
      EntryLinesSnoc(values, order);
      StoredEntryParses(values, last);
      ParseSnoc(EntryLines(values, init), last + "=" + values[last]);
      assert order == init + [last];
      OrderedMapSnoc(values, init, last);
    }
  }

  /** Both header lines are skipped when read, hold no '\n', and are the literal `save` writes first. */
  lemma HeaderFacts()
    ensures Skipped(HeaderLines[0]) && Skipped(HeaderLines[1])
    ensures NoNewline(HeaderLines[0]) && NoNewline(HeaderLines[1])
    ensures "# TriggerBot Configuration\n\n" == Unlines(HeaderLines)
  {
    assert Unlines(HeaderLines) == HeaderLines[0] + "\n" + (HeaderLines[1] + "\n" + Unlines([]));
  }

  lemma TwoSkipped(a: string, b: string, lines: seq<string>)
    requires Skipped(a) && Skipped(b)
    ensures Parse([a, b] + lines) == Parse(lines)
  {
    SkippedLineIgnored([], a, [b] + lines);
    assert [] + [a] + ([b] + lines) == [a, b] + lines;
    assert [] + ([b] + lines) == [] + [b] + lines;
    SkippedLineIgnored([], b, lines);
    assert [] + lines == lines;
  }

  /** Header lines are skipped, so parsing a saved text sees only its entries. */
  lemma HeaderIgnored(lines: seq<string>)
    ensures Parse(HeaderLines + lines) == Parse(lines)
  {
    HeaderFacts();
    assert HeaderLines + lines == [HeaderLines[0], HeaderLines[1]] + lines;
    TwoSkipped(HeaderLines[0], HeaderLines[1], lines);
  }

  lemma SavedLinesNoNewline(values: map<string, string>, order: seq<string>)
    requires Storable(values)
    requires forall i | 0 <= i < |order| :: order[i] in values
    ensures forall i | 0 <= i < |HeaderLines + EntryLines(values, order)| :: NoNewline((HeaderLines + EntryLines(values, order))[i])
  {
    var entries := EntryLines(values, order);
    var lines := HeaderLines + entries;
    HeaderFacts();
    forall i | 0 <= i < |lines|
      ensures NoNewline(lines[i])
    {
      if i >= 2 {
        assert lines[i] == entries[i - 2];
        StoredEntryOneLine(values, order[i - 2]);
      }
    }
  }

  lemma OrderedMapIsMap(values: map<string, string>, order: seq<string>)
    requires KeyOrder(order, values)
    ensures (map k | k in order && k in values :: values[k]) == values
  {
  }

  /** Saving a storable map in any order and loading the text back recovers the map. */
  lemma SaveLoadRoundTrip(values: map<string, string>, order: seq<string>)
    requires Storable(values) && KeyOrder(order, values)
    ensures Parse(Lines(SavedText(values, order))) == values
  {
    var entries := EntryLines(values, order);
    SavedLinesNoNewline(values, order);
    LinesUnlines(HeaderLines + entries);
    assert Lines(SavedText(values, order)) == HeaderLines + entries;
    HeaderIgnored(entries);
    ParseEntryLines(values, order);
    OrderedMapIsMap(values, order);
  }

  /** Why keys must not hold '=': such a key is split at its own '=' when read back. */
  lemma KeyWithEqualsSplits()
    ensures Parse(Lines(SavedText(map["a=b" := "c"], ["a=b"]))) == map["a" := "b=c"]
  {
    var entries := EntryLines(map["a=b" := "c"], ["a=b"]);
    assert entries[0] == "a=b" + "=" + "c" == "a" + ['='] + "b=c";
    assert entries == [entries[0]];
    var lines := HeaderLines + entries;
    HeaderFacts();
    assert NoNewline(entries[0]);
    assert forall i | 0 <= i < |lines| :: NoNewline(lines[i]);
    LinesUnlines(lines);
    HeaderIgnored(entries);
    FindAfter("a", '=', "b=c");
    assert entries[0][0] == 'a' && entries[0][..1] == "a" && entries[0][2..] == "b=c";
    assert ParseLine(entries[0]) == Some(Entry("a", "b=c"));
    assert entries[..0] == [];
  }

  /** The keys `createDefault` writes (config.cpp:72-84), in the order it writes them. */
  function DefaultKey(k: nat): string
    requires k < 13
  {
    match k
    case 0 => "hold_mode"
    case 1 => "hold_key"
    case 2 => "tap_time"
    case 3 => "scan_area_x"
    case 4 => "scan_area_y"
    case 5 => "change_sensitivity"
    case 6 => "use_universal_mode"
    case 7 => "pixel_change_threshold"
    case 8 => "adaptive_mode"
    case 9 => "debug_mode"
    case 10 => "show_overlay"
    case 11 => "reaction_time_min"
    case 12 => "reaction_time_max"
  }

  /** The value `createDefault` writes for `DefaultKey(k)`. */
  function DefaultValue(k: nat): string
    requires k < 13
  {
    match k
    case 0 => "1"
    case 1 => "left_alt"
    case 2 => "100"
    case 3 => "8"
    case 4 => "8"
    case 5 => "40.0"
    case 6 => "true"
    case 7 => "15"
    case 8 => "true"
    case 9 => "true"
    case 10 => "true"
    case 11 => "0"
    case 12 => "0"
  }

  /** A comment line as `createDefault` writes it: "# " and the text. */
  function Comment(text: string): string
  {
    "# " + text
  }

  /**
   * The text of the default file's comment lines: line 0, and lines 15 to 22 (the notes of
   * config.cpp:86-92). Texts longer than twenty-odd characters are written as concatenations
   * of shorter literals, whose characters the verifier can inspect one by one.
   */
  function NoteText(k: nat): string
    requires k == 0 || 15 <= k < 23
  {
    match k
    case 0 => "TriggerBot Configuration"
    case 15 => "Notes:"
    case 16 => "scan_area_x/y: " + "Size of detection " + "area at screen center"
    case 17 => "change_sensitivity: " + "How much a pixel " + "must change to count " + "(0-255)"
    case 18 => "pixel_change_threshold: " + "Number of changed " + "pixels needed " + "to trigger"
    case 19 => "adaptive_mode: " + "Dynamically adjust " + "to game conditions"
    case 20 => "debug_mode: " + "Show debug " + "information in console"
    case 21 => "show_overlay: " + "Toggle visual " + "overlay of scan area"
    case 22 => "reaction_time_min/max: " + "Random delay " + "in milliseconds " + "before firing " + "(0 = no delay)"
  }

  lemma ScanAreaNoteOneLine() ensures '\n' !in NoteText(16) {}
  lemma SensitivityNoteOneLine() ensures '\n' !in NoteText(17) {}
  lemma ThresholdNoteOneLine() ensures '\n' !in NoteText(18) {}
  lemma AdaptiveNoteOneLine() ensures '\n' !in NoteText(19) {}
  lemma DebugNoteOneLine() ensures '\n' !in NoteText(20) {}
  lemma OverlayNoteOneLine() ensures '\n' !in NoteText(21) {}
  lemma ReactionTimeNoteOneLine() ensures '\n' !in NoteText(22) {}

  lemma NoteOneLine(k: nat)
    requires k == 0 || 15 <= k < 23
    ensures '\n' !in NoteText(k)
  {
    match k
    case 0 =>
    case 15 =>
    case 16 => ScanAreaNoteOneLine();
    case 17 => SensitivityNoteOneLine();
    case 18 => ThresholdNoteOneLine();
    case 19 => AdaptiveNoteOneLine();
    case 20 => DebugNoteOneLine();
    case 21 => OverlayNoteOneLine();
    case 22 => ReactionTimeNoteOneLine();
  }

  // The default keys and values hold no '\n'; the keys are checked in four groups, which keeps each proof small.
  lemma FirstKeysOneLine(k: nat)
    requires k < 5
    ensures '\n' !in DefaultKey(k)
  {
    match k
    case 0 =>
    case 1 =>
    case 2 =>
    case 3 =>
    case 4 =>
  }

  lemma SecondKeysOneLine(k: nat)
    requires 5 <= k < 7
    ensures '\n' !in DefaultKey(k)
  {
    match k
    case 5 =>
    case 6 =>
  }

  lemma ThirdKeysOneLine(k: nat)
    requires 7 <= k < 9
    ensures '\n' !in DefaultKey(k)
  {
    match k
    case 7 =>
    case 8 =>
  }

  lemma LastKeysOneLine(k: nat)
    requires 9 <= k < 13
    ensures '\n' !in DefaultKey(k)
  {
    match k
    case 9 =>
    case 10 =>
    case 11 =>
    case 12 =>
  }

  lemma ValuesOneLine(k: nat)
    requires k < 13
    ensures '\n' !in DefaultValue(k)
  {
    match k
    case 0 =>
    case 1 =>
    case 2 =>
    case 3 =>
    case 4 =>
    case 5 =>
    case 6 =>
    case 7 =>
    case 8 =>
    case 9 =>
    case 10 =>
    case 11 =>
    case 12 =>
  }

  /** The comment and blank lines of the default file: line 0, and lines 14 to 22. */
  function DefaultComment(k: nat): string
    requires k == 0 || 14 <= k < 23
  {
    if k == 14 then "" else Comment(NoteText(k))
  }

  /** The text `createDefault` writes (config.cpp:71-92), one line per element. */
  function DefaultLine(k: nat): string
    requires k < 23
  {
    if 1 <= k <= 13 then DefaultKey(k - 1) + "=" + DefaultValue(k - 1) else DefaultComment(k)
  }

  lemma FirstKeysFormat(k: nat)
    requires k < 7
    ensures '=' !in DefaultKey(k)
    ensures |DefaultKey(k)| > 0 && DefaultKey(k)[0] != '#'
  {
    match k
    case 0 =>
    case 1 =>
    case 2 =>
    case 3 =>
    case 4 =>
    case 5 =>
    case 6 =>
  }

  lemma LastKeysFormat(k: nat)
    requires 7 <= k < 13
    ensures '=' !in DefaultKey(k)
    ensures |DefaultKey(k)| > 0 && DefaultKey(k)[0] != '#'
  {
    match k
    case 7 =>
    case 8 =>
    case 9 =>
    case 10 =>
    case 11 =>
    case 12 =>
  }

  /** Every default key can be carried by a `key=value` line: no '=', not empty, no leading '#'. */
  lemma DefaultKeyFormat(k: nat)
    requires k < 13
    ensures forall i | 0 <= i < |DefaultKey(k)| :: DefaultKey(k)[i] != '='
    ensures |DefaultKey(k)| > 0 && DefaultKey(k)[0] != '#'
  {
    if k < 7 {
      FirstKeysFormat(k);
    } else {
      LastKeysFormat(k);
    }
  }

  lemma DefaultKeysDistinct(i: nat, j: nat)
    requires i < j < 13
    ensures DefaultKey(i) != DefaultKey(j)
  {
  }

  /** Lines 1 to 13 of the default file are its entries. */
  lemma DefaultEntryParses(k: nat)
    requires k < 13
    ensures ParseLine(DefaultLine(k + 1)) == Some(Entry(DefaultKey(k), DefaultValue(k)))
  {
    DefaultKeyFormat(k);
    ParseEntryLine(DefaultKey(k), DefaultValue(k));
  }

  /** The other lines of the default file are skipped when read. */
  lemma DefaultCommentIgnored(k: nat)
    requires k == 0 || 14 <= k < 23
    ensures ParseLine(DefaultLine(k)).None?
  {
    if k != 14 {
      assert Comment(NoteText(k))[0] == '#';
    }
  }

  /** Lines with an entry for each of `keys` from `first` on, and skipped lines elsewhere. */
  predicate KeyedLines(lines: seq<string>, first: nat, keys: seq<string>, values: seq<string>)
  {
    |keys| == |values| && first + |keys| <= |lines|
    && (forall k | 0 <= k < |keys| :: ParseLine(lines[first + k]) == Some(Entry(keys[k], values[k])))
    && (forall j | 0 <= j < |lines| && !(first <= j < first + |keys|) :: ParseLine(lines[j]).None?)
  }

  /** In keyed lines with distinct keys, each key is read back with its own value. */
  lemma KeyedLinesHold(lines: seq<string>, first: nat, keys: seq<string>, values: seq<string>, k: nat)
    requires KeyedLines(lines, first, keys, values) && k < |keys|
    requires forall i, j | 0 <= i < j < |keys| :: keys[i] != keys[j]
    ensures keys[k] in Parse(lines) && Parse(lines)[keys[k]] == values[k]
  {
    forall j | first + k < j < |lines|
      ensures !Defines(lines[j], keys[k])
    {
      if j < first + |keys| {
        var m := j - first;
        assert lines[first + m] == lines[j];
        assert ParseLine(lines[j]) == Some(Entry(keys[m], values[m]));
        assert keys[k] != keys[m];
      }
    }
    ParseLastWins(lines, first + k, keys[k], values[k]);
  }

  /** Keyed lines define no key but their own. */
  lemma KeyedLinesOnly(lines: seq<string>, first: nat, keys: seq<string>, values: seq<string>, key: string)
    requires KeyedLines(lines, first, keys, values) && key in Parse(lines)
    ensures key in keys
  {
    ParseFromLines(lines, key);
    var i :| 0 <= i < |lines| && ParseLine(lines[i]) == Some(Entry(key, Parse(lines)[key]));
    var m := i - first;
    assert lines[first + m] == lines[i];
    assert keys[m] == key;
  }

  /** The default keys, in file order, and their values. */
  function DefaultKeys(): (keys: seq<string>)
    ensures |keys| == 13 && forall k | 0 <= k < 13 :: keys[k] == DefaultKey(k)
  {
    seq(13, k requires 0 <= k < 13 => DefaultKey(k))
  }

  function DefaultValues(): (values: seq<string>)
    ensures |values| == 13 && forall k | 0 <= k < 13 :: values[k] == DefaultValue(k)
  {
    seq(13, k requires 0 <= k < 13 => DefaultValue(k))
  }

  lemma DefaultKeyedLines(lines: seq<string>)
    requires |lines| == 23 && forall k | 0 <= k < 23 :: lines[k] == DefaultLine(k)
    ensures KeyedLines(lines, 1, DefaultKeys(), DefaultValues())
    ensures forall i, j | 0 <= i < j < 13 :: DefaultKeys()[i] != DefaultKeys()[j]
  {
    forall k | 0 <= k < 13
      ensures ParseLine(lines[1 + k]) == Some(Entry(DefaultKeys()[k], DefaultValues()[k]))
    {
      DefaultEntryParses(k);
    }
    forall j | 0 <= j < 23 && !(1 <= j < 14)
      ensures ParseLine(lines[j]).None?
    {
      DefaultCommentIgnored(j);
    }
    forall i, j | 0 <= i < j < 13
      ensures DefaultKeys()[i] != DefaultKeys()[j]
    {
      DefaultKeysDistinct(i, j);
    }
  }

  /** The thirteen default keys with their values, and no other key. */
  predicate DefaultEntries(values: map<string, string>)
  {
    (forall k | 0 <= k < 13 :: DefaultKey(k) in values && values[DefaultKey(k)] == DefaultValue(k))
    && (forall key | key in values :: exists k | 0 <= k < 13 :: DefaultKey(k) == key)
  }

  /** Keyed lines with distinct keys read back as exactly those keys, each with its own value. */
  lemma KeyedLinesParse(lines: seq<string>, first: nat, keys: seq<string>, values: seq<string>)
    requires KeyedLines(lines, first, keys, values)
    requires forall i, j | 0 <= i < j < |keys| :: keys[i] != keys[j]
    ensures forall k | 0 <= k < |keys| :: keys[k] in Parse(lines) && Parse(lines)[keys[k]] == values[k]
    ensures forall key | key in Parse(lines) :: key in keys
  {
    forall k | 0 <= k < |keys|
      ensures keys[k] in Parse(lines) && Parse(lines)[keys[k]] == values[k]
    {
      KeyedLinesHold(lines, first, keys, values, k);
    }
    forall key | key in Parse(lines)
      ensures key in keys
    {
      KeyedLinesOnly(lines, first, keys, values, key);
    }
  }

  /** A map holding exactly the keys of `DefaultKeys()`, with `DefaultValues()`, holds the defaults. */
  lemma DefaultEntriesFromKeys(values: map<string, string>)
    requires forall k | 0 <= k < 13 :: DefaultKeys()[k] in values && values[DefaultKeys()[k]] == DefaultValues()[k]
    requires forall key | key in values :: key in DefaultKeys()
    ensures DefaultEntries(values)
  {
    var keys := DefaultKeys();
    forall key | key in values
      ensures exists k | 0 <= k < 13 :: DefaultKey(k) == key
    {
      var k :| 0 <= k < 13 && keys[k] == key;
    }
  }

  /** Reading the default lines gives the thirteen default keys with their values, and no other key. */
  lemma DefaultsParse(lines: seq<string>)
    requires |lines| == 23 && forall k | 0 <= k < 23 :: lines[k] == DefaultLine(k)
    ensures DefaultEntries(Parse(lines))
  {
    DefaultKeyedLines(lines);
    KeyedLinesParse(lines, 1, DefaultKeys(), DefaultValues());
    DefaultEntriesFromKeys(Parse(lines));
  }

  /** The default file's lines. */
  function DefaultLines(): (lines: seq<string>)
    ensures |lines| == 23
  {
    seq(23, k requires 0 <= k < 23 => DefaultLine(k))
  }

  /**
   * `createDefault`'s lines read back as exactly the thirteen keys of config.cpp:72-84
   * with their values; the comments and the blank line give nothing.
   */
  lemma DefaultFileEntries()
    ensures DefaultEntries(Parse(DefaultLines()))
  {
    DefaultsParse(DefaultLines());
  }

  /** The whole default file. */
  function DefaultText(): string { Unlines(DefaultLines()) }

  /** No default line holds a '\n'. */
  lemma CommentOneLine(text: string)
    requires '\n' !in text
    ensures NoNewline(Comment(text))
  {
    var line := Comment(text);
    forall i | 0 <= i < |line|
      ensures line[i] != '\n'
    {
      if i >= 2 {
        assert line[i] == text[i - 2];
      }
    }
  }

  lemma DefaultEntryOneLine(k: nat)
    requires k < 13
    ensures NoNewline(DefaultKey(k) + "=" + DefaultValue(k))
  {
    if k < 5 {
      FirstKeysOneLine(k);
    } else if k < 7 {
      SecondKeysOneLine(k);
    } else if k < 9 {
      ThirdKeysOneLine(k);
    } else {
      LastKeysOneLine(k);
    }
    ValuesOneLine(k);
    EntryLineNoNewline(DefaultKey(k), DefaultValue(k));
  }

  lemma DefaultLineOneLine(k: nat)
    requires k < 23
    ensures NoNewline(DefaultLine(k))
  {
    if 1 <= k <= 13 {
      DefaultEntryOneLine(k - 1);
    } else if k != 14 {
      NoteOneLine(k);
      CommentOneLine(NoteText(k));
    }
  }

  /** Splitting the default file at '\n' gives back its lines: this is what `load` reads after `createDefault`. */
  lemma DefaultTextLines()
    ensures Lines(DefaultText()) == DefaultLines()
  {
    var lines := DefaultLines();
    forall k | 0 <= k < |lines|
      ensures NoNewline(lines[k])
    {
      DefaultLineOneLine(k);
    }
    LinesUnlines(lines);
  }

  /** Loading a freshly created default file gives exactly the thirteen defaults. */
  lemma DefaultTextEntries()
    ensures DefaultEntries(Parse(Lines(DefaultText())))
  {
    DefaultTextLines();
    DefaultFileEntries();
  }

  /** The values `get` accepts as true (config.cpp:52-53); the comparison is exact, so "TRUE" is false. */
  predicate Truthy(s: string)
  {
    s == "true" || s == "1" || s == "yes" || s == "on"
  }

  /** What `ostringstream << bool` prints without `boolalpha`. */
  function BoolText(b: bool): string
  {
    if b then "1" else "0"
  }

  /** config.cpp:62-65: the text `save` writes, visiting the keys in some order. */
  method SavedEntries(values: map<string, string>) returns (text: string, ghost order: seq<string>)
    ensures KeyOrder(order, values) && text == SavedText(values, order)
  {
    order := [];
    text := "# TriggerBot Configuration\n\n";
    HeaderFacts();
    assert HeaderLines + EntryLines(values, order) == HeaderLines;
    var remaining := values.Keys;
    while remaining != {}
      invariant forall i | 0 <= i < |order| :: order[i] in values && order[i] !in remaining
      invariant forall i, j | 0 <= i < j < |order| :: order[i] != order[j]
      invariant forall k | k in values :: k in remaining || k in order
      invariant remaining <= values.Keys
      invariant text == Unlines(HeaderLines + EntryLines(values, order))
      decreases |remaining|
    {
      var k :| k in remaining;
      ghost var lines := HeaderLines + EntryLines(values, order);
      UnlinesAppend(lines, k + "=" + values[k]);
      text := text + k + "=" + values[k] + "\n";
      order := order + [k];
      assert HeaderLines + EntryLines(values, order) == lines + [k + "=" + values[k]];
      remaining := remaining - {k};
    }
  }

  /** The file system: the text of every file that can be opened for reading. */
  class FileStore {
    var contents: map<string, string>

    constructor (contents: map<string, string>)
      ensures this.contents == contents
    {
      this.contents := contents;
    }
  }

  class Config {
    var values: map<string, string>
    var filename: string

    /** config.cpp:13-15: remember the file name, then `load` it. */
    constructor (file: string, fs: FileStore, writable: bool)
      modifies fs
      ensures filename == file
      ensures file in old(fs.contents) ==> fs.contents == old(fs.contents) && values == Parse(Lines(old(fs.contents)[file]))
      ensures file !in old(fs.contents) && writable ==>
        fs.contents == old(fs.contents)[file := DefaultText()] && values == Parse(Lines(fs.contents[file]))
      ensures file !in old(fs.contents) && !writable ==> fs.contents == old(fs.contents) && values == map[]
    {
      values := map[];
      filename := file;
      new;
      assert fs.contents == old(fs.contents);
      var _ := Load("", fs, writable);
    }

    /** config.cpp:69-94: write the default file if it can be opened for writing. */
    method CreateDefault(fs: FileStore, writable: bool)
      modifies fs
      ensures fs.contents == if writable then old(fs.contents)[filename := DefaultText()] else old(fs.contents)
    {
      if writable {
        fs.contents := fs.contents[filename := DefaultText()];
      }
    }

    /** config.cpp:27-39: drop every value, then apply the lines in order. */
    method ReadEntries(lines: seq<string>)
      modifies this`values
      ensures values == Parse(lines)
    {
      values := map[];
      var i := 0;
      while i < |lines|
        invariant 0 <= i <= |lines|
        invariant values == Parse(lines[..i])
      {
        var line := lines[i];
        ParseStep(lines, i);
        if |line| == 0 || line[0] == '#' {
          i := i + 1;
          continue;
        }
        var pos := Find(line, '=');
        if pos.Some? {
          values := values[line[..pos.value] := line[pos.value + 1..]];
        }
        i := i + 1;
      }
      assert lines[..|lines|] == lines;
    }

    /**
     * config.cpp:17-41: an empty argument keeps the current file name. A missing file
     * is first created with the defaults; if it still cannot be read, the old values
     * stay. Otherwise the old values are dropped and the lines are parsed afresh.
     */
    method Load(file: string, fs: FileStore, writable: bool) returns (ok: bool)
      modifies this`values, this`filename, fs
      ensures filename == if file != "" then file else old(filename)
      ensures filename in old(fs.contents) ==>
        ok && fs.contents == old(fs.contents) && values == Parse(Lines(old(fs.contents)[filename]))
      ensures filename !in old(fs.contents) && writable ==>
        ok && fs.contents == old(fs.contents)[filename := DefaultText()] && values == Parse(Lines(fs.contents[filename]))
      ensures filename !in old(fs.contents) && !writable ==>
        !ok && fs.contents == old(fs.contents) && values == old(values)
    {
      if file != "" {
        filename := file;
      }
      assert fs.contents == old(fs.contents);
      if filename !in fs.contents {
        CreateDefault(fs, writable);
        if filename !in fs.contents {
          return false;
        }
      }
      ReadEntries(Lines(fs.contents[filename]));
      return true;
    }

    /** config.cpp:43-46. */
    function Get(key: string, defaultValue: string): (r: string)
      reads this
      ensures key in values ==> r == values[key]
      ensures key !in values ==> r == defaultValue
    {
      if key in values then values[key] else defaultValue
    }

    /** config.cpp:48-54: the default only for a missing key; otherwise one of four exact spellings. */
    function GetBool(key: string, defaultValue: bool): (r: bool)
      reads this
      ensures key !in values ==> r == defaultValue
      ensures key in values ==> (r <==> Truthy(values[key]))
    {
      if key !in values then defaultValue else Truthy(values[key])
    }

    /** config.h:47-55 with the stream extraction as the parameter `parse`. */
    function GetParsed<T>(key: string, defaultValue: T, parse: string -> T): (r: T)
      reads this
      ensures key !in values ==> r == defaultValue
      ensures key in values ==> r == parse(values[key])
    {
      if key !in values then defaultValue else parse(values[key])
    }

    /** config.h:72-77 for a string: overwrite this key, keep every other one. */
    method Set(key: string, value: string)
      modifies this`values
      ensures values == old(values)[key := value]
      ensures forall d :: Get(key, d) == value
      ensures forall k | k != key :: k in values <==> k in old(values)
      ensures forall k | k != key && k in values :: values[k] == old(values)[k]
    {
      values := values[key := value];
    }

    /** config.h:72-77 for a `bool`: stored as "1" or "0", which `GetBool` reads back. */
    method SetBool(key: string, value: bool)
      modifies this`values
      ensures values == old(values)[key := BoolText(value)]
      ensures forall d :: GetBool(key, d) == value
    {
      values := values[key := BoolText(value)];
    }

    /**
     * config.cpp:56-67: the header, then one line per entry in the map's iteration
     * order, which is not determined; `order` names the order used.
     */
    method Save(file: string, fs: FileStore, writable: bool) returns (ok: bool, ghost order: seq<string>)
      modifies this`filename, fs
      ensures filename == if file != "" then file else old(filename)
      ensures ok == writable
      ensures ok ==> KeyOrder(order, values) && fs.contents == old(fs.contents)[filename := SavedText(values, order)]
      ensures !ok ==> fs.contents == old(fs.contents)
    {
      if file != "" {
        filename := file;
      }
      order := [];
      if !writable {
        return false, order;
      }
      var text;
      text, order := SavedEntries(values);
      fs.contents := fs.contents[filename := text];
      return true, order;
    }
  }
}
