/**
 * `KeyCodeMapper` (src/input/keycode_mapper.cpp): the fixed table of key names and
 * Windows virtual-key codes, loaded into a name-to-code and a code-to-name map.
 */
module KeyCodes {

  /** Number of rows in `KEY_MAPPINGS` (keycode_mapper.cpp:12-82). */
  const KeyCount: nat := 69

  /** The name in row `i` of `KEY_MAPPINGS`, row 0 being line 13. */
  function Name(i: nat): string
    requires i < KeyCount
  {
    match i
    case 0 => "left_mouse_button"
    case 1 => "right_mouse_button"
    case 2 => "x1"
    case 3 => "x2"
    case 4 => "num_0"
    case 5 => "num_1"
    case 6 => "num_2"
    case 7 => "num_3"
    case 8 => "num_4"
    case 9 => "num_5"
    case 10 => "num_6"
    case 11 => "num_7"
    case 12 => "num_8"
    case 13 => "num_9"
    case 14 => "a"
    case 15 => "b"
    case 16 => "c"
    case 17 => "d"
    case 18 => "e"
    case 19 => "f"
    case 20 => "g"
    case 21 => "h"
    case 22 => "i"
    case 23 => "j"
    case 24 => "k"
    case 25 => "l"
    case 26 => "m"
    case 27 => "n"
    case 28 => "o"
    case 29 => "p"
    case 30 => "q"
    case 31 => "r"
    case 32 => "s"
    case 33 => "t"
    case 34 => "u"
    case 35 => "v"
    case 36 => "w"
    case 37 => "x"
    case 38 => "y"
    case 39 => "z"
    case 40 => "backspace"
    case 41 => "down_arrow"
    case 42 => "enter"
    case 43 => "esc"
    case 44 => "home"
    case 45 => "insert"
    case 46 => "left_alt"
    case 47 => "left_ctrl"
    case 48 => "left_shift"
    case 49 => "page_down"
    case 50 => "page_up"
    case 51 => "right_alt"
    case 52 => "right_ctrl"
    case 53 => "right_shift"
    case 54 => "space"
    case 55 => "tab"
    case 56 => "up_arrow"
    case 57 => "f1"
    case 58 => "f2"
    case 59 => "f3"
    case 60 => "f4"
    case 61 => "f5"
    case 62 => "f6"
    case 63 => "f7"
    case 64 => "f8"
    case 65 => "f9"
    case 66 => "f10"
    case 67 => "f11"
    case 68 => "f12"
    case _ => ""
  }

  /** The virtual-key code in row `i` of `KEY_MAPPINGS`. */
  function Code(i: nat): int
    requires i < KeyCount
  {
    match i
    case 0 => 0x01
    case 1 => 0x02
    case 2 => 0x05
    case 3 => 0x06
    case 4 => 0x30
    case 5 => 0x31
    case 6 => 0x32
    case 7 => 0x33
    case 8 => 0x34
    case 9 => 0x35
    case 10 => 0x36
    case 11 => 0x37
    case 12 => 0x38
    case 13 => 0x39
    case 14 => 0x41
    case 15 => 0x42
    case 16 => 0x43
    case 17 => 0x44
    case 18 => 0x45
    case 19 => 0x46
    case 20 => 0x47
    case 21 => 0x48
    case 22 => 0x49
    case 23 => 0x4A
    case 24 => 0x4B
    case 25 => 0x4C
    case 26 => 0x4D
    case 27 => 0x4E
    case 28 => 0x4F
    case 29 => 0x50
    case 30 => 0x51
    case 31 => 0x52
    case 32 => 0x53
    case 33 => 0x54
    case 34 => 0x55
    case 35 => 0x56
    case 36 => 0x57
    case 37 => 0x58
    case 38 => 0x59
    case 39 => 0x5A
    case 40 => 0x08
    case 41 => 0x28
    case 42 => 0x0D
    case 43 => 0x1B
    case 44 => 0x24
    case 45 => 0x2D
    case 46 => 0xA4
    case 47 => 0xA2
    case 48 => 0xA0
    case 49 => 0x22
    case 50 => 0x21
    case 51 => 0xA5
    case 52 => 0xA3
    case 53 => 0xA1
    case 54 => 0x20
    case 55 => 0x09
    case 56 => 0x26
    case 57 => 0x70
    case 58 => 0x71
    case 59 => 0x72
    case 60 => 0x73
    case 61 => 0x74
    case 62 => 0x75
    case 63 => 0x76
    case 64 => 0x77
    case 65 => 0x78
    case 66 => 0x79
    case 67 => 0x7A
    case 68 => 0x7B
    case _ => 0
  }

  /** The row holding `name`, or -1: the table read from the name side. */
  function NameIndex(name: string): int
  {
    match name
    case "left_mouse_button" => 0
    case "right_mouse_button" => 1
    case "x1" => 2
    case "x2" => 3
    case "num_0" => 4
    case "num_1" => 5
    case "num_2" => 6
    case "num_3" => 7
    case "num_4" => 8
    case "num_5" => 9
    case "num_6" => 10
    case "num_7" => 11
    case "num_8" => 12
    case "num_9" => 13
    case "a" => 14
    case "b" => 15
    case "c" => 16
    case "d" => 17
    case "e" => 18
    case "f" => 19
    case "g" => 20
    case "h" => 21
    case "i" => 22
    case "j" => 23
    case "k" => 24
    case "l" => 25
    case "m" => 26
    case "n" => 27
    case "o" => 28
    case "p" => 29
    case "q" => 30
    case "r" => 31
    case "s" => 32
    case "t" => 33
    case "u" => 34
    case "v" => 35
    case "w" => 36
    case "x" => 37
    case "y" => 38
    case "z" => 39
    case "backspace" => 40
    case "down_arrow" => 41
    case "enter" => 42
    case "esc" => 43
    case "home" => 44
    case "insert" => 45
    case "left_alt" => 46
    case "left_ctrl" => 47
    case "left_shift" => 48
    case "page_down" => 49
    case "page_up" => 50
    case "right_alt" => 51
    case "right_ctrl" => 52
    case "right_shift" => 53
    case "space" => 54
    case "tab" => 55
    case "up_arrow" => 56
    case "f1" => 57
    case "f2" => 58
    case "f3" => 59
    case "f4" => 60
    case "f5" => 61
    case "f6" => 62
    case "f7" => 63
    case "f8" => 64
    case "f9" => 65
    case "f10" => 66
    case "f11" => 67
    case "f12" => 68
    case _ => -1
  }

  /** The row holding `code`, or -1: the table read from the code side. */
  function CodeIndex(code: int): int
  {
    match code
    case 0x01 => 0
    case 0x02 => 1
    case 0x05 => 2
    case 0x06 => 3
    case 0x30 => 4
    case 0x31 => 5
    case 0x32 => 6
    case 0x33 => 7
    case 0x34 => 8
    case 0x35 => 9
    case 0x36 => 10
    case 0x37 => 11
    case 0x38 => 12
    case 0x39 => 13
    case 0x41 => 14
    case 0x42 => 15
    case 0x43 => 16
    case 0x44 => 17
    case 0x45 => 18
    case 0x46 => 19
    case 0x47 => 20
    case 0x48 => 21
    case 0x49 => 22
    case 0x4A => 23
    case 0x4B => 24
    case 0x4C => 25
    case 0x4D => 26
    case 0x4E => 27
    case 0x4F => 28
    case 0x50 => 29
    case 0x51 => 30
    case 0x52 => 31
    case 0x53 => 32
    case 0x54 => 33
    case 0x55 => 34
    case 0x56 => 35
    case 0x57 => 36
    case 0x58 => 37
    case 0x59 => 38
    case 0x5A => 39
    case 0x08 => 40
    case 0x28 => 41
    case 0x0D => 42
    case 0x1B => 43
    case 0x24 => 44
    case 0x2D => 45
    case 0xA4 => 46
    case 0xA2 => 47
    case 0xA0 => 48
    case 0x22 => 49
    case 0x21 => 50
    case 0xA5 => 51
    case 0xA3 => 52
    case 0xA1 => 53
    case 0x20 => 54
    case 0x09 => 55
    case 0x26 => 56
    case 0x70 => 57
    case 0x71 => 58
    case 0x72 => 59
    case 0x73 => 60
    case 0x74 => 61
    case 0x75 => 62
    case 0x76 => 63
    case 0x77 => 64
    case 0x78 => 65
    case 0x79 => 66
    case 0x7A => 67
    case 0x7B => 68
    case _ => -1
  }

  lemma IndexOfRow0(i: nat)
    requires 0 <= i < 6
    ensures NameIndex(Name(i)) == i && CodeIndex(Code(i)) == i
  {
  }

  lemma IndexOfRow6(i: nat)
    requires 6 <= i < 12
    ensures NameIndex(Name(i)) == i && CodeIndex(Code(i)) == i
  {
  }

  lemma IndexOfRow12(i: nat)
    requires 12 <= i < 18
    ensures NameIndex(Name(i)) == i && CodeIndex(Code(i)) == i
  {
  }

  lemma IndexOfRow18(i: nat)
    requires 18 <= i < 24
    ensures NameIndex(Name(i)) == i && CodeIndex(Code(i)) == i
  {
  }

  lemma IndexOfRow24(i: nat)
    requires 24 <= i < 30
    ensures NameIndex(Name(i)) == i && CodeIndex(Code(i)) == i
  {
  }

  lemma IndexOfRow30(i: nat)
    requires 30 <= i < 36
    ensures NameIndex(Name(i)) == i && CodeIndex(Code(i)) == i
  {
  }

  lemma IndexOfRow36(i: nat)
    requires 36 <= i < 42
    ensures NameIndex(Name(i)) == i && CodeIndex(Code(i)) == i
  {
  }

  lemma IndexOfRow42(i: nat)
    requires 42 <= i < 48
    ensures NameIndex(Name(i)) == i && CodeIndex(Code(i)) == i
  {
  }

  lemma IndexOfRow48(i: nat)
    requires 48 <= i < 54
    ensures NameIndex(Name(i)) == i && CodeIndex(Code(i)) == i
  {
  }

  lemma IndexOfRow54(i: nat)
    requires 54 <= i < 60
    ensures NameIndex(Name(i)) == i && CodeIndex(Code(i)) == i
  {
  }

  lemma IndexOfRow60(i: nat)
    requires 60 <= i < 66
    ensures NameIndex(Name(i)) == i && CodeIndex(Code(i)) == i
  {
  }

  lemma IndexOfRow66(i: nat)
    requires 66 <= i < 69
    ensures NameIndex(Name(i)) == i && CodeIndex(Code(i)) == i
  {
  }

  /** Looking a row's name or code up again finds that row: no name and no code occurs twice. */
  lemma IndexOfRow(i: nat)
    requires i < KeyCount
    ensures NameIndex(Name(i)) == i && CodeIndex(Code(i)) == i
  {
    if i < 6 {
      IndexOfRow0(i);
    } else if i < 12 {
      IndexOfRow6(i);
    } else if i < 18 {
      IndexOfRow12(i);
    } else if i < 24 {
      IndexOfRow18(i);
    } else if i < 30 {
      IndexOfRow24(i);
    } else if i < 36 {
      IndexOfRow30(i);
    } else if i < 42 {
      IndexOfRow36(i);
    } else if i < 48 {
      IndexOfRow42(i);
    } else if i < 54 {
      IndexOfRow48(i);
    } else if i < 60 {
      IndexOfRow54(i);
    } else if i < 66 {
      IndexOfRow60(i);
    } else {
      IndexOfRow66(i);
    }
  }

  /** No row name repeats, and no row code repeats. */
  lemma RowsDistinct(i: nat, j: nat)
    requires i < KeyCount && j < KeyCount && i != j
    ensures Name(i) != Name(j) && Code(i) != Code(j)
  {
    IndexOfRow(i);
    IndexOfRow(j);
  }

  /** Every listed name has at least one character, so a found name is never the empty string. */
  lemma NameNotEmpty(i: nat)
    requires i < KeyCount
    ensures Name(i) != ""
  {
    IndexOfRow(i);
    assert NameIndex("") == -1;
  }

  /** Every code lies in 0x01..0xA5, so no listed name is reported as -1. */
  lemma CodesInRange(i: nat)
    requires i < KeyCount
    ensures 0x01 <= Code(i) <= 0xA5
  {
    IndexOfRow(i);
  }

  predicate Listed(name: string)
  {
    exists i | 0 <= i < KeyCount :: Name(i) == name
  }

  predicate ListedCode(code: int)
  {
    exists i | 0 <= i < KeyCount :: Code(i) == code
  }

  /** The map built by inserting `keys[k] := values[k]` for k = 0, 1, ... in turn, later rows overwriting earlier ones. */
  function Table<K, V>(keys: seq<K>, values: seq<V>): map<K, V>
    requires |keys| == |values|
    decreases |keys|
  {
    if |keys| == 0 then map[]
    else Table(keys[..|keys| - 1], values[..|values| - 1])[keys[|keys| - 1] := values[|values| - 1]]
  }

  ghost predicate Distinct<K>(keys: seq<K>)
  {
    forall i, j | 0 <= i < j < |keys| :: keys[i] != keys[j]
  }

  lemma TableExtend<K, V>(keys: seq<K>, values: seq<V>, i: nat)
    requires |keys| == |values| && i < |keys|
    ensures Table(keys[..i + 1], values[..i + 1]) == Table(keys[..i], values[..i])[keys[i] := values[i]]
  {
    assert keys[..i + 1][..i] == keys[..i];
    assert values[..i + 1][..i] == values[..i];
  }

  /** With distinct keys nothing is overwritten: every key maps to the value of its own row. */
  lemma {:induction false} TableHolds<K, V>(keys: seq<K>, values: seq<V>, i: nat)
    requires |keys| == |values| && Distinct(keys) && i < |keys|
    ensures keys[i] in Table(keys, values) && Table(keys, values)[keys[i]] == values[i]
    decreases |keys|
  {
    var n := |keys|;
    if i < n - 1 {
      var prefix := keys[..n - 1];
      assert Distinct(prefix);
      TableHolds(prefix, values[..n - 1], i);
      assert prefix[i] == keys[i] != keys[n - 1];
    }
  }

  /** Only the keys of the rows are mapped. */
  lemma {:induction false} TableOnlyKeys<K, V>(keys: seq<K>, values: seq<V>, k: K)
    requires |keys| == |values|
    ensures k in Table(keys, values) ==> exists i | 0 <= i < |keys| :: keys[i] == k
    decreases |keys|
  {
    var n := |keys|;
    if n > 0 {
      var prefix := keys[..n - 1];
      TableOnlyKeys(prefix, values[..n - 1], k);
      if k in Table(keys, values) && k != keys[n - 1] {
        var i :| 0 <= i < n - 1 && prefix[i] == k;
        assert keys[i] == k;
      }
    }
  }

  /** The name column of `KEY_MAPPINGS`: pairwise distinct, none of them empty. */
  function Names(): (s: seq<string>)
    ensures |s| == KeyCount && forall i | 0 <= i < KeyCount :: s[i] == Name(i)
    ensures Distinct(s)
    ensures forall i | 0 <= i < KeyCount :: s[i] != ""
  {
    var s := seq(KeyCount, i requires 0 <= i < KeyCount => Name(i));
    assert Distinct(s) by {
      forall i, j | 0 <= i < j < |s|
        ensures s[i] != s[j]
      {
        RowsDistinct(i, j);
      }
    }
    assert forall i | 0 <= i < KeyCount :: s[i] != "" by {
      forall i | 0 <= i < KeyCount
        ensures s[i] != ""
      {
        NameNotEmpty(i);
      }
    }
    s
  }

  /** The code column of `KEY_MAPPINGS`: pairwise distinct, all in 0x01..0xA5. */
  function Codes(): (s: seq<int>)
    ensures |s| == KeyCount && forall i | 0 <= i < KeyCount :: s[i] == Code(i)
    ensures Distinct(s)
    ensures forall i | 0 <= i < KeyCount :: 0x01 <= s[i] <= 0xA5
  {
    var s := seq(KeyCount, i requires 0 <= i < KeyCount => Code(i));
    assert Distinct(s) by {
      forall i, j | 0 <= i < j < |s|
        ensures s[i] != s[j]
      {
        RowsDistinct(i, j);
      }
    }
    assert forall i | 0 <= i < KeyCount :: 0x01 <= s[i] <= 0xA5 by {
      forall i | 0 <= i < KeyCount
        ensures 0x01 <= s[i] <= 0xA5
      {
        CodesInRange(i);
      }
    }
    s
  }

  /** `nameToCode` after the first `n` rows of the constructor loop (keycode_mapper.cpp:96-99). */
  function NameTable(n: nat): map<string, int>
    requires n <= KeyCount
  {
    Table(Names()[..n], Codes()[..n])
  }

  /** `codeToName` after the first `n` rows of the constructor loop. */
  function CodeTable(n: nat): map<int, string>
    requires n <= KeyCount
  {
    Table(Codes()[..n], Names()[..n])
  }

  lemma TablesStep(i: nat)
    requires i < KeyCount
    ensures NameTable(i + 1) == NameTable(i)[Name(i) := Code(i)]
    ensures CodeTable(i + 1) == CodeTable(i)[Code(i) := Name(i)]
  {
    TableExtend(Names(), Codes(), i);
    TableExtend(Codes(), Names(), i);
  }

  /** The finished name table maps exactly the listed names, each to the code of its row. */
  lemma NameLookup(name: string)
    ensures name in NameTable(KeyCount) <==> Listed(name)
    ensures name in NameTable(KeyCount) ==> NameTable(KeyCount)[name] != -1
    ensures forall i | 0 <= i < KeyCount && Name(i) == name :: name in NameTable(KeyCount) && NameTable(KeyCount)[name] == Code(i)
  {
    assert Names()[..KeyCount] == Names() && Codes()[..KeyCount] == Codes();
    forall i | 0 <= i < KeyCount && Name(i) == name
      ensures name in NameTable(KeyCount) && NameTable(KeyCount)[name] == Code(i)
    {
      TableHolds(Names(), Codes(), i);
    }
    TableOnlyKeys(Names(), Codes(), name);
    if name in NameTable(KeyCount) {
      var i :| 0 <= i < KeyCount && Name(i) == name;
      CodesInRange(i);
    }
  }

  /** The finished code table maps exactly the listed codes, each to the name of its row. */
  lemma CodeLookup(code: int)
    ensures code in CodeTable(KeyCount) <==> ListedCode(code)
    ensures code in CodeTable(KeyCount) ==> CodeTable(KeyCount)[code] != ""
    ensures forall i | 0 <= i < KeyCount && Code(i) == code :: code in CodeTable(KeyCount) && CodeTable(KeyCount)[code] == Name(i)
  {
    assert Names()[..KeyCount] == Names() && Codes()[..KeyCount] == Codes();
    forall i | 0 <= i < KeyCount && Code(i) == code
      ensures code in CodeTable(KeyCount) && CodeTable(KeyCount)[code] == Name(i)
    {
      TableHolds(Codes(), Names(), i);
    }
    TableOnlyKeys(Codes(), Names(), code);
    if code in CodeTable(KeyCount) {
      var i :| 0 <= i < KeyCount && Code(i) == code;
      NameNotEmpty(i);
    }
  }

  class KeyCodeMapper {
    var nameToCode: map<string, int>
    var codeToName: map<int, string>

    ghost predicate Valid()
      reads this
    {
      nameToCode == NameTable(KeyCount) && codeToName == CodeTable(KeyCount)
    }

    /** keycode_mapper.cpp:90-100: both maps filled row by row. */
    constructor ()
      ensures Valid()
    {
      nameToCode := map[];
      codeToName := map[];
      new;
      var i := 0;
      while i < KeyCount
        invariant 0 <= i <= KeyCount
        invariant nameToCode == NameTable(i) && codeToName == CodeTable(i)
      {
        TablesStep(i);
        nameToCode := nameToCode[Name(i) := Code(i)];
        codeToName := codeToName[Code(i) := Name(i)];
        i := i + 1;
      }
    }

    /** keycode_mapper.cpp:102-108: the code of a listed name (matched exactly), else -1. */
    function GetKeyCode(keyName: string): (code: int)
      reads this
      requires Valid()
      ensures code != -1 <==> Listed(keyName)
      ensures forall i | 0 <= i < KeyCount && Name(i) == keyName :: code == Code(i)
    {
      NameLookup(keyName);
      if keyName in nameToCode then nameToCode[keyName] else -1
    }

    /** keycode_mapper.cpp:110-113: the name of a listed code, else the empty string. */
    function GetKeyName(keyCode: int): (name: string)
      reads this
      requires Valid()
      ensures name != "" <==> ListedCode(keyCode)
      ensures forall i | 0 <= i < KeyCount && Code(i) == keyCode :: name == Name(i)
    {
      CodeLookup(keyCode);
      if keyCode in codeToName then codeToName[keyCode] else ""
    }

    /** keycode_mapper.cpp:115-117. */
    predicate IsValidKeyName(keyName: string)
      reads this
      requires Valid()
      ensures IsValidKeyName(keyName) <==> GetKeyCode(keyName) != -1
    {
      NameLookup(keyName);
      keyName in nameToCode
    }
  }

  /** Name to code and back gives the name again, for every listed name. */
  lemma NameRoundTrip(m: KeyCodeMapper, i: nat)
    requires m.Valid() && i < KeyCount
    ensures m.GetKeyName(m.GetKeyCode(Name(i))) == Name(i)
  {
    assert m.GetKeyCode(Name(i)) == Code(i);
  }

  /** Code to name and back gives the code again, for every listed code. */
  lemma CodeRoundTrip(m: KeyCodeMapper, i: nat)
    requires m.Valid() && i < KeyCount
    ensures m.GetKeyCode(m.GetKeyName(Code(i))) == Code(i)
  {
    assert m.GetKeyName(Code(i)) == Name(i);
  }

  /** Matching is exact: "left_alt" (line 59) is found, upper case is not accepted. */
  lemma CaseSensitive(m: KeyCodeMapper)
    requires m.Valid()
    ensures m.GetKeyCode("left_alt") == 0xA4
    ensures m.GetKeyCode("LEFT_ALT") == -1
  {
    assert Name(46) == "left_alt" && Code(46) == 0xA4;
    assert !Listed("LEFT_ALT");
  }
}
