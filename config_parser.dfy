/**
 * `config_parser_t` (src/config_parser.cpp): reads an INI-style file into a map from
 * `section.key` to value, then overlays the recognised settings onto a configuration.
 *
 * Opening files is not part of this model: a file is given as `Some(lines)` when it
 * could be opened and `None` otherwise. `std::stoi` and `std::stoul` are an abstract
 * partial integer parser `toInt`.
 */
module ConfigParser {
  import opened BoundedInts
  import opened Wrappers

  /**
   * `ledctl_config_t`. The three thresholds are used by the parser and the LED state
   * manager but have no declared field or default in src/config_parser.h; they are
   * fields here, defaulting to the values of the example file.
   */
  datatype Config = Config(
    interfaceName: string,
    capacityMbps: uint32,
    brightness: uint8,
    logLevel: string,
    lowThreshold: uint8,
    mediumThreshold: uint8,
    highThreshold: uint8)

  const DEFAULT_CONFIG := Config("eth0", 2000, 255, "info", 10, 40, 80)

  // ---------------------------------------------------------------------------
  // trim
  // ---------------------------------------------------------------------------

  /** The characters `trim` removes: space, tab, CR and LF. */
  predicate IsSpace(c: char) {
    c == ' ' || c == '\t' || c == '\r' || c == '\n'
  }

  predicate AllSpace(s: string) {
    forall k :: 0 <= k < |s| ==> IsSpace(s[k])
  }

  /** `t` sits at offset `i` of `s` with only whitespace around it. */
  predicate Framed(s: string, i: nat, t: string) {
    i + |t| <= |s| && s[i..i + |t|] == t && AllSpace(s[..i]) && AllSpace(s[i + |t|..])
  }

  /** `find_first_not_of` for whitespace: the index of the first other character, `|s|` when there is none. */
  function FirstNonSpace(s: string): (i: nat)
    ensures i <= |s| && AllSpace(s[..i])
    ensures i < |s| ==> !IsSpace(s[i])
  {
    if s == [] || !IsSpace(s[0]) then 0
    else
      var i := FirstNonSpace(s[1..]);
      i + 1
  }

  /** One past `find_last_not_of` for whitespace: 0 when every character is whitespace. */
  function EndOfNonSpace(s: string): (e: nat)
    ensures e <= |s| && AllSpace(s[e..])
    ensures e > 0 ==> !IsSpace(s[e - 1])
  {
    if s == [] || !IsSpace(s[|s| - 1]) then |s|
    else
      var e := EndOfNonSpace(s[..|s| - 1]);
      e
  }

  /** `trim`: `s` without its leading and trailing whitespace. */
  function Trim(s: string): string {
    var start := FirstNonSpace(s);
    if start == |s| then []
    else
      var end := EndOfNonSpace(s);
      s[start..end]
  }

  /**
   * What `trim` promises: the result is empty exactly when `s` is all whitespace,
   * otherwise it neither starts nor ends with whitespace, and it is the infix of `s`
   * that only whitespace surrounds.
   */
  lemma {:induction false} TrimSpec(s: string)
    ensures Trim(s) == [] <==> AllSpace(s)
    ensures Trim(s) != [] ==> !IsSpace(Trim(s)[0]) && !IsSpace(Trim(s)[|Trim(s)| - 1])
    ensures Framed(s, FirstNonSpace(s), Trim(s))
  {
    var start := FirstNonSpace(s);
    if start == |s| {
      assert s[..start] == s;
      assert s[start..start] == [];
    } else {
      var end := EndOfNonSpace(s);
      assert s[start] == s[start..end][0];
    }
  }

  /** The result of `trim` is unique: the only whitespace-framed infix of `s` with non-whitespace ends. */
  lemma {:induction false} TrimUnique(s: string, i: nat, t: string)
    requires Framed(s, i, t)
    requires t == [] || (!IsSpace(t[0]) && !IsSpace(t[|t| - 1]))
    ensures Trim(s) == t
  {
    TrimSpec(s);
    if t == [] {
      forall k | 0 <= k < |s| ensures IsSpace(s[k]) {
        if k < i { assert s[k] == s[..i][k]; } else { assert s[k] == s[i..][k - i]; }
      }
    } else {
      assert s[i] == t[0];
    }
  }

  /** `trim` only removes characters. */
  lemma TrimKeepsOut(s: string, c: char)
    requires c !in s
    ensures c !in Trim(s)
  {
    TrimSpec(s);
    var i := FirstNonSpace(s);
    var t := Trim(s);
    assert forall k :: 0 <= k < |t| ==> t[k] == s[i + k];
  }

  /** `trim` is idempotent. */
  lemma {:induction false} TrimIdempotent(s: string)
    ensures Trim(Trim(s)) == Trim(s)
  {
    TrimSpec(s);
    var t := Trim(s);
    assert Framed(t, 0, t) by {
      assert t[..0] == [] && t[|t|..] == [] && t[0..|t|] == t;
    }
    TrimUnique(t, 0, t);
  }

  /** Every part of an all-whitespace text is all whitespace. */
  lemma AllSpaceSlice(s: string, a: nat, b: nat)
    requires a <= b <= |s| && AllSpace(s)
    ensures AllSpace(s[a..b])
  {
    assert forall k | 0 <= k < b - a :: s[a..b][k] == s[a + k];
  }

  /** Cutting part of the leading whitespace keeps a text framed. */
  lemma FramedDropLeading(s: string, i: nat, j: nat, t: string)
    requires i <= j && Framed(s, j, t)
    ensures Framed(s[i..], j - i, t)
  {
    var r := s[i..];
    assert r[j - i..j - i + |t|] == s[j..j + |t|];
    assert r[j - i + |t|..] == s[j + |t|..];
    AllSpaceSlice(s[..j], i, j);
    assert s[..j][i..j] == s[i..j];
    assert r[..j - i] == s[i..j];
  }

  /** Leading whitespace does not change what `trim` returns. */
  lemma {:induction false} TrimDropLeading(s: string, i: nat)
    requires i <= |s| && AllSpace(s[..i])
    ensures Trim(s[i..]) == Trim(s)
  {
    TrimSpec(s);
    var j := FirstNonSpace(s);
    var t := Trim(s);
    var r := s[i..];
    if t == [] {
      assert AllSpace(r) by {
        assert r == s[i..|s|];
        AllSpaceSlice(s, i, |s|);
      }
      TrimSpec(r);
    } else {
      assert i <= j by {
        assert s[j] == t[0];
      }
      FramedDropLeading(s, i, j, t);
      TrimUnique(r, j - i, t);
    }
  }

  /** Trailing whitespace does not change what `trim` returns. */
  lemma {:induction false} TrimDropTrailing(s: string, e: nat)
    requires e <= |s| && AllSpace(s[e..])
    ensures Trim(s[..e]) == Trim(s)
  {
    TrimSpec(s);
    var j := FirstNonSpace(s);
    var t := Trim(s);
    var r := s[..e];
    if t == [] {
      assert AllSpace(r) by {
        assert r == s[0..e];
        AllSpaceSlice(s, 0, e);
      }
      TrimSpec(r);
    } else {
      assert j + |t| <= e by {
        assert s[j + |t| - 1] == t[|t| - 1];
      }
      assert Framed(r, j, t) by {
        assert r[j..j + |t|] == s[j..j + |t|];
        assert r[..j] == s[..j];
        assert r[j + |t|..] == s[j + |t|..][0..e - (j + |t|)];
        AllSpaceSlice(s[j + |t|..], 0, e - (j + |t|));
      }
      TrimUnique(r, j, t);
    }
  }

  // ---------------------------------------------------------------------------
  // One line of the file
  // ---------------------------------------------------------------------------

  /** `std::string::find` for one character: the first index holding `c`. */
  function Find(s: string, c: char): (r: Option<nat>)
    ensures r.None? <==> c !in s
    ensures r.Some? ==> r.value < |s| && s[r.value] == c && c !in s[..r.value]
  {
    if s == [] then None
    else if s[0] == c then Some(0)
    else
      var r := Find(s[1..], c);
      if r.None? then None
      else
        assert s[..r.value + 1] == [s[0]] + s[1..][..r.value];
        Some(r.value + 1)
  }

  predicate IsQuote(c: char) {
    c == '"' || c == '\''
  }

  /** One pair of matching surrounding quotes is removed from a value of length at least 2. */
  function Unquote(v: string): (r: string)
  {
    if |v| >= 2 && ((v[0] == '"' && v[|v| - 1] == '"') || (v[0] == '\'' && v[|v| - 1] == '\'')) then
      v[1..|v| - 1]
    else v
  }

  /** Quoting a text and unquoting it gives the text back, quotes inside it included. */
  lemma UnquoteQuoted(w: string, q: char)
    requires IsQuote(q)
    ensures Unquote([q] + w + [q]) == w
  {
    assert ([q] + w + [q])[1..|w| + 1] == w;
  }

  /** What a line of the file means once trimmed. */
  datatype Line =
    | Blank
    | Comment
    | Header(name: string)
    | Assignment(key: string, value: string)
    | Unrecognised

  /**
   * The line logic of `parse_file`: skip blank lines and lines starting with '#' or
   * ';', recognise `[name]`, split a key/value pair at the first '=' (trimming both
   * sides and unquoting the value), and ignore anything else.
   */
  function ParseLine(raw: string): (l: Line)
    ensures l == Blank <==> AllSpace(raw)
    ensures l.Assignment? ==> '=' !in l.key && Trim(l.key) == l.key
  {
    var line := Trim(raw);
    TrimSpec(raw);
    if line == [] || line[0] == '#' || line[0] == ';' then
      if line == [] then Blank else Comment
    else if line[0] == '[' && line[|line| - 1] == ']' then
      Header(Trim(line[1..|line| - 1]))
    else
      match Find(line, '=')
      case None => Unrecognised
      case Some(eq) =>
        var before := line[..eq];
        var key := Trim(before);
        TrimKeepsOut(before, '=');
        TrimIdempotent(before);
        Assignment(key, Unquote(Trim(line[eq + 1..])))
  }

  /** `trim` leaves a text without surrounding whitespace as it is. */
  lemma TrimClean(s: string)
    requires s == [] || (!IsSpace(s[0]) && !IsSpace(s[|s| - 1]))
    ensures Trim(s) == s
  {
    assert Framed(s, 0, s) by {
      assert s[..0] == [] && s[|s|..] == [] && s[0..|s|] == s;
    }
    TrimUnique(s, 0, s);
  }

  /** A key that can be written as `key=value`: non-empty, trimmed, without '=' and not read as a comment or header. */
  predicate PlainKey(key: string) {
    && key != []
    && !IsSpace(key[0]) && !IsSpace(key[|key| - 1])
    && key[0] != '#' && key[0] != ';' && key[0] != '['
    && '=' !in key
  }

  /** The first occurrence of `c` is where `find` stops. */
  lemma FindFirst(s: string, c: char, m: nat)
    requires m < |s| && s[m] == c && c !in s[..m]
    ensures Find(s, c) == Some(m)
  {
    assert c in s;
  }

  /** Trimming a line whose key part is not blank cuts the key's leading and the rest's trailing whitespace. */
  lemma {:induction false} TrimAroundEquals(k: string, rest: string)
    requires Trim(k) != []
    ensures Trim(k + "=" + rest) == k[FirstNonSpace(k)..] + "=" + rest[..EndOfNonSpace(rest)]
  {
    var s := k + "=" + rest;
    var i := FirstNonSpace(k);
    TrimSpec(k);
    assert k[i] == Trim(k)[0];
    var er := EndOfNonSpace(rest);
    var e := |k| + 1 + er;
    var line := s[i..e];
    assert line == k[i..] + "=" + rest[..er];
    assert Framed(s, i, line) by {
      assert s[..i] == k[..i];
      assert s[e..] == rest[er..];
    }
    assert !IsSpace(line[|line| - 1]) by {
      if er == 0 {
        assert line[|line| - 1] == '=';
      } else {
        assert line[|line| - 1] == rest[er - 1];
      }
    }
    TrimUnique(s, i, line);
  }

  /** A trimmed line that is neither blank, a comment nor a header, and holds '=', is split at its first '='. */
  lemma ParseAssignmentLine(raw: string, eq: nat)
    requires Trim(raw) != [] && Trim(raw)[0] != '#' && Trim(raw)[0] != ';' && Trim(raw)[0] != '['
    requires Find(Trim(raw), '=') == Some(eq)
    ensures ParseLine(raw) == Assignment(Trim(Trim(raw)[..eq]), Unquote(Trim(Trim(raw)[eq + 1..])))
  {
  }

  /** A line `front=tail` with no '=' in `front` splits at `|front|` into its two parts. */
  lemma LineParts(front: string, tail: string)
    requires '=' !in front
    ensures Find(front + "=" + tail, '=') == Some(|front|)
    ensures (front + "=" + tail)[..|front|] == front
    ensures (front + "=" + tail)[|front| + 1..] == tail
  {
    var line := front + "=" + tail;
    assert line[..|front|] == front;
    FindFirst(line, '=', |front|);
    assert line[|front| + 1..] == tail;
  }

  /**
   * A line with '=' whose text before the first '=' does not trim to nothing, a comment
   * or a header is an assignment: the key is that text trimmed, and the value is the
   * rest trimmed and unquoted.
   */
  lemma {:induction false} ParseSplit(k: string, rest: string)
    requires '=' !in k
    requires Trim(k) != [] && Trim(k)[0] != '#' && Trim(k)[0] != ';' && Trim(k)[0] != '['
    ensures ParseLine(k + "=" + rest) == Assignment(Trim(k), Unquote(Trim(rest)))
  {
    var i := FirstNonSpace(k);
    var er := EndOfNonSpace(rest);
    var front := k[i..];
    TrimAroundEquals(k, rest);
    TrimSpec(k);
    assert front[0] == Trim(k)[0];
    assert '=' !in front by {
      assert forall x | 0 <= x < |front| :: front[x] == k[i + x];
    }
    LineParts(front, rest[..er]);
    TrimDropLeading(k, i);
    TrimDropTrailing(rest, er);
    ParseAssignmentLine(k + "=" + rest, |front|);
  }

  /** A text without surrounding whitespace, padded by one space on either side, trims back to itself. */
  lemma {:induction false} TrimPadded(t: string)
    requires t == [] || (!IsSpace(t[0]) && !IsSpace(t[|t| - 1]))
    ensures Trim(t + " ") == t && Trim(" " + t) == t
  {
    TrimClean(t);
    var right := t + " ";
    assert right[..|t|] == t && right[|t|..] == " ";
    TrimDropTrailing(right, |t|);
    var left := " " + t;
    assert left[1..] == t && left[..1] == " ";
    TrimDropLeading(left, 1);
  }

  /** Regrouping of a line written with spaces around its equals sign. */
  lemma SpacedLine(key: string, value: string)
    ensures key + " = " + value == (key + " ") + "=" + (" " + value)
  {
    var line := (key + " ") + "=" + (" " + value);
    assert |line| == |key| + 3 + |value|;
    assert forall k | 0 <= k < |line| :: line[k] == (key + " = " + value)[k];
  }

  /** The `key = value` lines the program's example file is made of read back as the key and the value. */
  lemma {:induction false} SpacedAssignment(key: string, value: string)
    requires PlainKey(key)
    requires value == [] || (!IsSpace(value[0]) && !IsSpace(value[|value| - 1]))
    requires !(|value| >= 2 && IsQuote(value[0]) && value[|value| - 1] == value[0])
    ensures ParseLine(key + " = " + value) == Assignment(key, value)
  {
    TrimPadded(key);
    TrimPadded(value);
    assert '=' !in key + " ";
    SpacedLine(key, value);
    ParseSplit(key + " ", " " + value);
  }

  /** Blank lines and comments leave the parser's state as it was. */
  lemma CommentLeavesState(st: ParserState, raw: string)
    requires Trim(raw) == [] || Trim(raw)[0] == '#' || Trim(raw)[0] == ';'
    ensures Step(st, raw) == st
  {
  }

  /** A line without '=' that is not a bracketed header leaves the parser's state as it was. */
  lemma NoEqualsLeavesState(st: ParserState, raw: string)
    requires '=' !in raw
    requires !(Trim(raw) != [] && Trim(raw)[0] == '[' && Trim(raw)[|Trim(raw)| - 1] == ']')
    ensures Step(st, raw) == st
  {
    TrimKeepsOut(raw, '=');
  }

  /** A quoted value is read back verbatim, surrounding whitespace and '=' inside it included. */
  lemma {:induction false} QuotedAssignmentRoundTrip(key: string, w: string)
    requires PlainKey(key)
    ensures ParseLine(key + "=\"" + w + "\"") == Assignment(key, w)
  {
    var v := ['"'] + w + ['"'];
    assert key + "=\"" + w + "\"" == key + "=" + v;
    ParseSplit(key, v);
    TrimClean(key);
    TrimClean(v);
    UnquoteQuoted(w, '"');
  }

  /** A trimmed, unquoted value after a plain key is read back as written. */
  lemma {:induction false} AssignmentRoundTrip(key: string, value: string)
    requires PlainKey(key)
    requires value == [] || (!IsSpace(value[0]) && !IsSpace(value[|value| - 1]))
    requires !(|value| >= 2 && IsQuote(value[0]) && value[|value| - 1] == value[0])
    ensures ParseLine(key + "=" + value) == Assignment(key, value)
  {
    ParseSplit(key, value);
    TrimClean(key);
    TrimClean(value);
    assert Unquote(value) == value;
  }

  /** A bracketed line names the trimmed text between the brackets. */
  lemma {:induction false} HeaderRoundTrip(name: string)
    ensures ParseLine("[" + name + "]") == Header(Trim(name))
  {
    var line := "[" + name + "]";
    assert line[0] == '[' && line[|line| - 1] == ']';
    TrimClean(line);
    assert Trim(line) == line;
    assert line[1..|line| - 1] == name;
  }

  // ---------------------------------------------------------------------------
  // The whole file
  // ---------------------------------------------------------------------------

  /** Keys read after a section header are stored as `section.key`, others bare. */
  function FullKey(section: string, key: string): string {
    if section == [] then key else section + "." + key
  }

  /** The parser's state between lines: the current section and the map so far. */
  datatype ParserState = ParserState(section: string, data: map<string, string>)

  /** What one parsed line does to the parser's state. */
  function Apply(st: ParserState, l: Line): ParserState {
    match l
    case Header(name) => st.(section := name)
    case Assignment(key, value) => st.(data := st.data[FullKey(st.section, key) := value])
    case _ => st
  }

  /** What one raw line does to the parser's state. */
  function Step(st: ParserState, raw: string): ParserState {
    Apply(st, ParseLine(raw))
  }

  /** The state after reading `lines` from a fresh start (no section, empty map). */
  function ParseLines(lines: seq<string>): (st: ParserState)
    ensures lines == [] ==> st == ParserState("", map[])
  {
    if lines == [] then ParserState("", map[])
    else Step(ParseLines(lines[..|lines| - 1]), lines[|lines| - 1])
  }

  /** Every line of `lines`, parsed on its own. */
  function ParseAll(lines: seq<string>): (parsed: seq<Line>)
    ensures |parsed| == |lines|
  {
    seq(|lines|, k requires 0 <= k < |lines| => ParseLine(lines[k]))
  }

  /** The state after applying already-parsed lines from a fresh start. */
  function Interpret(parsed: seq<Line>): (st: ParserState)
    ensures parsed == [] ==> st == ParserState("", map[])
  {
    if parsed == [] then ParserState("", map[])
    else Apply(Interpret(parsed[..|parsed| - 1]), parsed[|parsed| - 1])
  }

  /** Reading a file is parsing each line on its own, then applying the results in order. */
  lemma {:induction false} ParseLinesInterpret(lines: seq<string>)
    ensures ParseLines(lines) == Interpret(ParseAll(lines))
    decreases |lines|
  {
    if lines != [] {
      var prefix := lines[..|lines| - 1];
      ParseLinesInterpret(prefix);
      assert ParseAll(lines)[..|lines| - 1] == ParseAll(prefix);
    }
  }

  /** Parsed line `j` stores a value under `fullKey`. */
  predicate Stores(parsed: seq<Line>, j: nat, fullKey: string)
    requires j < |parsed|
  {
    parsed[j].Assignment? && FullKey(Interpret(parsed[..j]).section, parsed[j].key) == fullKey
  }

  /**
   * Later duplicates overwrite earlier ones: the value stored by line `i` is the one
   * in the map when no later line stores under the same key.
   */
  lemma {:induction false} LastAssignmentWins(parsed: seq<Line>, i: nat)
    requires i < |parsed| && parsed[i].Assignment?
    requires forall j | i < j < |parsed| :: !Stores(parsed, j, FullKey(Interpret(parsed[..i]).section, parsed[i].key))
    ensures var fullKey := FullKey(Interpret(parsed[..i]).section, parsed[i].key);
      fullKey in Interpret(parsed).data && Interpret(parsed).data[fullKey] == parsed[i].value
    decreases |parsed|
  {
    var n := |parsed| - 1;
    var prefix := parsed[..n];
    var fullKey := FullKey(Interpret(parsed[..i]).section, parsed[i].key);
    if i == n {
      assert parsed[..i] == prefix;
    } else {
      assert prefix[..i] == parsed[..i] && prefix[i] == parsed[i];
      forall j | i < j < |prefix|
        ensures !Stores(prefix, j, fullKey)
      {
        assert prefix[..j] == parsed[..j] && prefix[j] == parsed[j];
        assert !Stores(parsed, j, fullKey);
      }
      LastAssignmentWins(prefix, i);
      assert !Stores(parsed, n, fullKey);
    }
  }

  /** Until the first header the section is empty, so keys are stored bare. */
  lemma {:induction false} NoSectionBeforeHeader(lines: seq<string>)
    requires forall j | 0 <= j < |lines| :: !ParseLine(lines[j]).Header?
    ensures ParseLines(lines).section == []
  {
    if lines != [] {
      var prefix := lines[..|lines| - 1];
      assert forall j | 0 <= j < |prefix| :: prefix[j] == lines[j];
      NoSectionBeforeHeader(prefix);
    }
  }

  /** A file without headers whose keys contain no '.' stores every value under a key without a '.'. */
  lemma {:induction false} BareKeysOnly(lines: seq<string>)
    requires forall j | 0 <= j < |lines| :: !ParseLine(lines[j]).Header?
    requires forall j | 0 <= j < |lines| :: ParseLine(lines[j]).Assignment? ==> '.' !in ParseLine(lines[j]).key
    ensures ParseLines(lines).section == []
    ensures forall fullKey | fullKey in ParseLines(lines).data :: '.' !in fullKey
    decreases |lines|
  {
    if lines != [] {
      var prefix := lines[..|lines| - 1];
      assert forall j | 0 <= j < |prefix| :: prefix[j] == lines[j];
      BareKeysOnly(prefix);
    }
  }

  /**
   * Keys read before any header are stored bare, but `get_value` looks up
   * `section.key`, which contains a '.': from a file without headers whose keys
   * contain no '.', every lookup returns the default.
   */
  lemma BareKeysUnreachable(parser: ConfigParser, lines: seq<string>, section: string, key: string, default: string)
    requires forall j | 0 <= j < |lines| :: !ParseLine(lines[j]).Header?
    requires forall j | 0 <= j < |lines| :: ParseLine(lines[j]).Assignment? ==> '.' !in ParseLine(lines[j]).key
    requires parser.configData == ParseLines(lines).data
    ensures parser.GetValue(section, key, default) == default
  {
    BareKeysOnly(lines);
    assert (section + "." + key)[|section|] == '.';
  }

  // ---------------------------------------------------------------------------
  // Overlaying settings onto a configuration
  // ---------------------------------------------------------------------------

  /** A text setting replaces the current value only when present and non-empty. */
  function TextSetting(data: map<string, string>, section: string, key: string, current: string): (r: string)
    ensures r == current || (section + "." + key in data && r == data[section + "." + key] && r != [])
    ensures section + "." + key in data && data[section + "." + key] != [] ==> r == data[section + "." + key]
  {
    var fullKey := section + "." + key;
    if fullKey in data && data[fullKey] != [] then data[fullKey] else current
  }

  /**
   * A numeric setting replaces the current value only when present, non-empty,
   * parsable and within `lo..hi`; otherwise the current value stays.
   */
  function RangedSetting(data: map<string, string>, section: string, key: string, lo: int, hi: int, current: int,
                         toInt: string -> Option<int>): (r: int)
    ensures var fullKey := section + "." + key;
      r == current || (fullKey in data && data[fullKey] != [] && toInt(data[fullKey]) == Some(r) && lo <= r <= hi)
    ensures var fullKey := section + "." + key;
      fullKey in data && data[fullKey] != [] && toInt(data[fullKey]).Some? && lo <= toInt(data[fullKey]).value <= hi
      ==> r == toInt(data[fullKey]).value
  {
    var fullKey := section + "." + key;
    if fullKey in data && data[fullKey] != [] then
      match toInt(data[fullKey])
      case Some(v) => if lo <= v <= hi then v else current
      case None => current
    else current
  }

  /**
   * The capacity takes any parsable value, truncated to 32 bits as assigning an
   * `unsigned long` to a `uint32_t` does.
   */
  function CapacitySetting(data: map<string, string>, current: uint32, toInt: string -> Option<int>): (r: uint32)
    ensures var fullKey := "network" + "." + "capacity_mbps";
      r == current || (fullKey in data && data[fullKey] != [] && toInt(data[fullKey]).Some?
                       && r == toInt(data[fullKey]).value % 0x1_0000_0000)
    ensures var fullKey := "network" + "." + "capacity_mbps";
      fullKey in data && data[fullKey] != [] && toInt(data[fullKey]).Some? ==> r == toInt(data[fullKey]).value % 0x1_0000_0000
  {
    var fullKey := "network" + "." + "capacity_mbps";
    if fullKey in data && data[fullKey] != [] then
      match toInt(data[fullKey])
      case Some(v) => v % 0x1_0000_0000
      case None => current
    else current
  }

  /** What `load_config_from_file` does to `config` once the file is parsed into `data`. */
  function ApplySettings(data: map<string, string>, config: Config, toInt: string -> Option<int>): Config {
    Config(
      TextSetting(data, "network", "interface", config.interfaceName),
      CapacitySetting(data, config.capacityMbps, toInt),
      RangedSetting(data, "leds", "brightness", 0, 255, config.brightness, toInt) as uint8,
      TextSetting(data, "logging", "level", config.logLevel),
      RangedSetting(data, "leds", "low_threshold", 0, 100, config.lowThreshold, toInt) as uint8,
      RangedSetting(data, "leds", "medium_threshold", 0, 100, config.mediumThreshold, toInt) as uint8,
      RangedSetting(data, "leds", "high_threshold", 0, 100, config.highThreshold, toInt) as uint8)
  }

  /** Thresholds within 0..100 stay within 0..100, whatever the file says. */
  lemma ThresholdsStayInRange(data: map<string, string>, config: Config, toInt: string -> Option<int>)
    requires config.lowThreshold <= 100 && config.mediumThreshold <= 100 && config.highThreshold <= 100
    ensures var c := ApplySettings(data, config, toInt);
      c.lowThreshold <= 100 && c.mediumThreshold <= 100 && c.highThreshold <= 100
  {
  }

  /** A file with no settings leaves the configuration as it was. */
  lemma EmptyFileKeepsConfig(config: Config, toInt: string -> Option<int>)
    ensures ApplySettings(map[], config, toInt) == config
  {
  }

  /** Applying the same file twice gives what applying it once gives. */
  lemma ApplySettingsIdempotent(data: map<string, string>, config: Config, toInt: string -> Option<int>)
    ensures ApplySettings(data, ApplySettings(data, config, toInt), toInt) == ApplySettings(data, config, toInt)
  {
  }

  class ConfigParser {
    var configData: map<string, string>

    constructor ()
      ensures configData == map[]
    {
      configData := map[];
    }

    /**
     * `parse_file`: fails and leaves the map alone when the file could not be
     * opened; otherwise the map holds exactly what the file's lines store, nothing
     * from any earlier file.
     */
    method ParseFile(file: Option<seq<string>>) returns (ok: bool)
      modifies this
      ensures file.None? ==> !ok && configData == old(configData)
      ensures file.Some? ==> ok && configData == ParseLines(file.value).data
    {
      if file.None? {
        return false;
      }
      var lines := file.value;
      configData := map[];
      var currentSection := "";
      var i := 0;
      while i < |lines|
        invariant 0 <= i <= |lines|
        invariant ParserState(currentSection, configData) == ParseLines(lines[..i])
      {
        assert lines[..i + 1][..i] == lines[..i];
        match ParseLine(lines[i]) {
          case Header(name) =>
            currentSection := name;
          case Assignment(key, value) =>
            var fullKey := if currentSection == [] then key else currentSection + "." + key;
            configData := configData[fullKey := value];
          case _ =>
        }
        i := i + 1;
      }
      assert lines[..i] == lines;
      ok := true;
    }

    /** `get_value`: the value stored under `section.key`, otherwise `default`. */
    function GetValue(section: string, key: string, default: string := ""): (v: string)
      reads this
      ensures section + "." + key in configData ==> v == configData[section + "." + key]
      ensures section + "." + key !in configData ==> v == default
    {
      var fullKey := section + "." + key;
      if fullKey in configData then configData[fullKey] else default
    }

    /**
     * `load_config_from_file`: fails and leaves `config` unchanged when the file
     * could not be opened; otherwise overlays the file's settings.
     */
    method LoadConfigFromFile(file: Option<seq<string>>, config: Config, toInt: string -> Option<int>)
      returns (ok: bool, result: Config)
      modifies this
      ensures file.None? ==> !ok && result == config && configData == old(configData)
      ensures file.Some? ==> ok && configData == ParseLines(file.value).data
                             && result == ApplySettings(configData, config, toInt)
    {
      result := config;
      ok := ParseFile(file);
      if !ok {
        return;
      }
      result := OverlaySettings(config, toInt);
    }

    /** The part of `load_config_from_file` after parsing: each setting the file holds replaces the default. */
    method OverlaySettings(config: Config, toInt: string -> Option<int>) returns (result: Config)
      ensures result == ApplySettings(configData, config, toInt)
    {
      result := config;
      var iface := GetValue("network", "interface", result.interfaceName);
      if iface != [] {
        result := result.(interfaceName := iface);
      }
      assert result.interfaceName == TextSetting(configData, "network", "interface", config.interfaceName);

      var capacityStr := GetValue("network", "capacity_mbps");
      if capacityStr != [] {
        var parsed := toInt(capacityStr);
        if parsed.Some? {
          result := result.(capacityMbps := parsed.value % 0x1_0000_0000);
        }
      }
      assert result.capacityMbps == CapacitySetting(configData, config.capacityMbps, toInt);

      var brightness := RangedValue("leds", "brightness", 0, 255, result.brightness, toInt);
      result := result.(brightness := brightness as uint8);
      var low := RangedValue("leds", "low_threshold", 0, 100, result.lowThreshold, toInt);
      result := result.(lowThreshold := low as uint8);
      var medium := RangedValue("leds", "medium_threshold", 0, 100, result.mediumThreshold, toInt);
      result := result.(mediumThreshold := medium as uint8);
      var high := RangedValue("leds", "high_threshold", 0, 100, result.highThreshold, toInt);
      result := result.(highThreshold := high as uint8);

      var logLevel := GetValue("logging", "level", result.logLevel);
      if logLevel != [] {
        result := result.(logLevel := logLevel);
      }
    }

    /**
     * One numeric block of `load_config_from_file`: a present, non-empty, parsable
     * value within `lo..hi` replaces `current`; anything else keeps it.
     */
    method RangedValue(section: string, key: string, lo: int, hi: int, current: int, toInt: string -> Option<int>)
      returns (v: int)
      ensures v == RangedSetting(configData, section, key, lo, hi, current, toInt)
    {
      v := current;
      var text := GetValue(section, key);
      if text != [] {
        var parsed := toInt(text);
        if parsed.Some? && lo <= parsed.value <= hi {
          v := parsed.value;
        }
      }
    }

    /**
     * `load_config`: the local file when it can be read, otherwise the system-wide
     * one, otherwise the configuration unchanged; it always succeeds.
     */
    method LoadConfig(localFile: Option<seq<string>>, systemFile: Option<seq<string>>, config: Config,
                      toInt: string -> Option<int>)
      returns (ok: bool, result: Config)
      modifies this
      ensures ok
      ensures localFile.Some? ==> result == ApplySettings(ParseLines(localFile.value).data, config, toInt)
      ensures localFile.None? && systemFile.Some? ==> result == ApplySettings(ParseLines(systemFile.value).data, config, toInt)
      ensures localFile.None? && systemFile.None? ==> result == config
    {
      var loaded;
      loaded, result := LoadConfigFromFile(localFile, config, toInt);
      if loaded {
        return true, result;
      }
      loaded, result := LoadConfigFromFile(systemFile, config, toInt);
      if loaded {
        return true, result;
      }
      return true, config;
    }
  }
}
