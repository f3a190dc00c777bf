/** The escaped comma lists in which the login allow-lists are written, and their reading as rules. */
module AllowLists {
  import opened Wrappers
  import opened MapSums

  // -- White space -------------------------------------------------------------------------

  predicate IsSpace(c: char) {
    || '\U{2000}' <= c <= '\U{200A}'
    || c in " \t\n\r\U{0B}\U{0C}\U{85}\U{A0}\U{1680}\U{2028}\U{2029}\U{202F}\U{205F}\U{3000}"
  }

  function Trim(s: string): string {
    if s == "" then ""
    else if IsSpace(s[0]) then Trim(s[1..])
    else if IsSpace(s[|s| - 1]) then Trim(s[..|s| - 1])
    else s
  }

  predicate Trimmed(s: string) {
    s == "" || (!IsSpace(s[0]) && !IsSpace(s[|s| - 1]))
  }

  lemma {:induction false} TrimmedExactly(s: string)
    ensures Trimmed(Trim(s))
    ensures |Trim(s)| <= |s|
    ensures Trim(s) == s <==> Trimmed(s)
  {
    if s != "" && !Trimmed(s) {
      TrimmedExactly(if IsSpace(s[0]) then s[1..] else s[..|s| - 1]);
    }
  }

  /** Unicode's white space, by code point. */
  lemma SpacesAre(c: char)
    ensures IsSpace(c) <==>
            var n := c as int;
            || 0x09 <= n <= 0x0D || 0x2000 <= n <= 0x200A || 0x2028 <= n <= 0x2029
            || n in {0x20, 0x85, 0xA0, 0x1680, 0x202F, 0x205F, 0x3000}
  {
    var n := c as int;
    if 0x09 <= n <= 0x0D {
      assert c in "\t\n\U{0B}\U{0C}\r";
    }
  }

  predicate AllSpace(s: string) {
    forall c | c in s :: IsSpace(c)
  }

  /** Trimming takes white space off both ends and nothing else. */
  lemma {:induction false} TrimCuts(s: string) returns (before: string, after: string)
    ensures s == before + Trim(s) + after && AllSpace(before) && AllSpace(after)
  {
    if s == "" {
      before, after := "", "";
    } else if IsSpace(s[0]) {
      before, after := TrimCuts(s[1..]);
      assert s == [s[0]] + s[1..];
      before := [s[0]] + before;
    } else if IsSpace(s[|s| - 1]) {
      before, after := TrimCuts(s[..|s| - 1]);
      assert s == s[..|s| - 1] + [s[|s| - 1]];
      after := after + [s[|s| - 1]];
    } else {
      before, after := "", "";
      assert s == "" + s + "";
    }
  }

  // -- Splitting ---------------------------------------------------------------------------

  predicate HasPrefix(s: string, prefix: string) {
    prefix <= s
  }

  /** What is still to come after `current` has been read: a backslash before the delimiter takes
      the delimiter's first character literally, any other backslash stands for itself. */
  function Pieces(s: string, delimiter: string, current: string): seq<string>
    requires delimiter != ""
    decreases |s|
  {
    if s == "" then [Trim(current)]
    else if s[0] == '\\' && |s| > 1 then
      if HasPrefix(s[1..], delimiter) then Pieces(s[2..], delimiter, current + [s[1]])
      else Pieces(s[1..], delimiter, current + [s[0]])
    else if HasPrefix(s, delimiter) then [Trim(current)] + Pieces(s[|delimiter|..], delimiter, "")
    else Pieces(s[1..], delimiter, current + [s[0]])
  }

  function Split(s: string, delimiter: string): seq<string>
    requires delimiter != ""
  {
    if s == "" then [] else Pieces(s, delimiter, "")
  }

  /** One step of reading, at an index into the whole string. */
  lemma PiecesAt(s: string, i: nat, delimiter: string, current: string)
    requires delimiter != "" && i < |s|
    ensures HasPrefix(s[i..], delimiter) ==> i + |delimiter| <= |s|
    ensures Pieces(s[i..], delimiter, current) ==
            if s[i] == '\\' && i + 1 < |s| then
              if HasPrefix(s[i + 1..], delimiter) then Pieces(s[i + 2..], delimiter, current + [s[i + 1]])
              else Pieces(s[i + 1..], delimiter, current + [s[i]])
            else if HasPrefix(s[i..], delimiter) then [Trim(current)] + Pieces(s[i + |delimiter|..], delimiter, "")
            else Pieces(s[i + 1..], delimiter, current + [s[i]])
  {
    hide Trim;
    var t := s[i..];
    assert t[1..] == s[i + 1..];
    if s[i] == '\\' && i + 1 < |s| {
      assert t[2..] == s[i + 2..];
    } else if HasPrefix(t, delimiter) {
      assert t[|delimiter|..] == s[i + |delimiter|..];
    }
  }

  /** What is still to be read from an index on, in either escape state. */
  ghost function Rest(s: string, i: nat, delimiter: string, current: string, escaped: bool): seq<string>
    requires delimiter != "" && i <= |s| && (escaped ==> i < |s|)
  {
    if escaped then Pieces(s[i + 1..], delimiter, current + [s[i]]) else Pieces(s[i..], delimiter, current)
  }

  lemma RestEnds(s: string, delimiter: string, current: string)
    requires delimiter != ""
    ensures Rest(s, 0, delimiter, current, false) == Pieces(s, delimiter, current)
    ensures Rest(s, |s|, delimiter, current, false) == [Trim(current)]
  {
    hide Trim;
    assert s[0..] == s && s[|s|..] == "";
  }

  lemma RestAt(s: string, i: nat, delimiter: string, current: string)
    requires delimiter != "" && i < |s|
    ensures Rest(s, i, delimiter, current, true) == Rest(s, i + 1, delimiter, current + [s[i]], false)
    ensures HasPrefix(s[i..], delimiter) ==> i + |delimiter| <= |s|
    ensures Rest(s, i, delimiter, current, false) ==
            if s[i] == '\\' && i + 1 < |s| then
              if HasPrefix(s[i + 1..], delimiter) then Rest(s, i + 1, delimiter, current, true)
              else Rest(s, i + 1, delimiter, current + [s[i]], false)
            else if HasPrefix(s[i..], delimiter) then [Trim(current)] + Rest(s, i + |delimiter|, delimiter, "", false)
            else Rest(s, i + 1, delimiter, current + [s[i]], false)
  {
    hide Trim, Pieces, HasPrefix;
    PiecesAt(s, i, delimiter, current);
  }

  method SplitWithEscapes(s: string, delimiter: string) returns (result: seq<string>)
    requires delimiter != ""
    ensures result == Split(s, delimiter)
  {
    hide Trim, HasPrefix, Pieces, Rest;
    if s == "" {
      return [];
    }
    result := [];
    RestEnds(s, delimiter, "");
    var current, escaped, i := "", false, 0;
    while i < |s|
      invariant 0 <= i <= |s| && (escaped ==> i < |s|)
      invariant Pieces(s, delimiter, "") == result + Rest(s, i, delimiter, current, escaped)
    {
      RestAt(s, i, delimiter, current);
      if escaped {
        current := current + [s[i]];
        escaped := false;
      } else if s[i] == '\\' && i + 1 < |s| {
        if HasPrefix(s[i + 1..], delimiter) {
          escaped := true;
        } else {
          current := current + [s[i]];
        }
      } else if HasPrefix(s[i..], delimiter) {
        result := result + [Trim(current)];
        current := "";
        i := i + |delimiter| - 1;
      } else {
        current := current + [s[i]];
      }
      i := i + 1;
    }
    RestEnds(s, delimiter, current);
    result := result + [Trim(current)];
  }

  // -- The printer, and what comes back ----------------------------------------------------

  /** A comma inside an entry is written with a backslash before it. */
  function Escape(entry: string): string {
    if entry == "" then ""
    else (if entry[0] == ',' then "\\," else [entry[0]]) + Escape(entry[1..])
  }

  function Print(entries: seq<string>): string {
    if entries == [] then ""
    else if |entries| == 1 then Escape(entries[0])
    else Escape(entries[0]) + "," + Print(entries[1..])
  }

  predicate EndsInBackslash(entry: string) {
    entry != "" && entry[|entry| - 1] == '\\'
  }

  /** What the reader makes of printed entries: the backslash that ends an entry escapes the comma
      after it, so the entry is glued to the next. */
  function Glued(entries: seq<string>): (r: seq<string>)
    requires entries != []
    ensures 0 < |r| <= |entries|
  {
    if |entries| == 1 then entries
    else
      var rest := Glued(entries[1..]);
      if EndsInBackslash(entries[0])
      then [entries[0][..|entries[0]| - 1] + "," + rest[0]] + rest[1..]
      else [entries[0]] + rest
  }

  function TrimAll(entries: seq<string>): (r: seq<string>)
    ensures |r| == |entries|
    ensures forall i :: 0 <= i < |r| ==> r[i] == Trim(entries[i])
  {
    if entries == [] then [] else [Trim(entries[0])] + TrimAll(entries[1..])
  }

  lemma StartsWithComma(s: string)
    ensures HasPrefix(s, ",") <==> s != "" && s[0] == ','
  {
  }

  lemma BackslashEscapes(rest: string, current: string)
    requires rest != "" && rest[0] == ','
    ensures Pieces("\\" + rest, ",", current) == Pieces(rest[1..], ",", current + ",")
  {
    hide Trim, HasPrefix;
    var s := "\\" + rest;
    assert s[1..] == rest && s[2..] == rest[1..];
    StartsWithComma(rest);
  }

  lemma PlainIsRead(c: char, more: string, current: string)
    requires c != ',' && (c == '\\' && more != "" ==> more[0] != ',')
    ensures Pieces([c] + more, ",", current) == Pieces(more, ",", current + [c])
  {
    hide Trim, HasPrefix;
    var s := [c] + more;
    assert s[1..] == more;
    StartsWithComma(s);
    StartsWithComma(more);
  }

  lemma CharIsRead(entry: string, rest: string, current: string)
    requires entry != "" && (rest == "" || rest[0] == ',')
    requires entry == "\\" ==> rest == ""
    ensures Pieces(Escape(entry) + rest, ",", current) ==
            Pieces(Escape(entry[1..]) + rest, ",", current + [entry[0]])
  {
    hide Pieces, Trim;
    var more := Escape(entry[1..]) + rest;
    if entry[0] == ',' {
      assert Escape(entry) + rest == "\\" + ("," + more);
      BackslashEscapes("," + more, current);
    } else {
      assert Escape(entry) + rest == [entry[0]] + more;
      PlainIsRead(entry[0], more, current);
    }
  }

  /** Reading an escaped entry that is followed by the end or by a comma. */
  lemma {:induction false} EntryIsRead(entry: string, rest: string, current: string)
    requires rest == "" || rest[0] == ','
    ensures Pieces(Escape(entry) + rest, ",", current) ==
            if EndsInBackslash(entry) && rest != ""
            then Pieces(rest[1..], ",", current + entry[..|entry| - 1] + ",")
            else Pieces(rest, ",", current + entry)
  {
    hide Pieces;
    if entry == "" {
      assert Escape(entry) + rest == rest && current + entry == current;
    } else if entry == "\\" && rest != "" {
      assert Escape(entry) == "\\";
      BackslashEscapes(rest, current);
      assert current + entry[..0] == current;
    } else {
      var c, more := entry[0], entry[1..];
      CharIsRead(entry, rest, current);
      hide Escape;
      EntryIsRead(more, rest, current + [c]);
      assert current + [c] + more == current + entry;
      if more != "" {
        assert current + [c] + more[..|more| - 1] == current + entry[..|entry| - 1];
      }
    }
  }

  lemma StepSplits(rest: string, current: string)
    requires rest != "" && rest[0] == ','
    ensures Pieces(rest, ",", current) == [Trim(current)] + Pieces(rest[1..], ",", "")
  {
    hide Trim, HasPrefix;
    StartsWithComma(rest);
  }

  /** Whatever entries are printed, this is what is read back. */
  lemma {:induction false} PrintedIsReadGlued(entries: seq<string>, current: string)
    requires entries != []
    ensures var g := Glued(entries);
            Pieces(Print(entries), ",", current) == [Trim(current + g[0])] + TrimAll(g[1..])
  {
    hide Trim, Escape, HasPrefix;
    var x := entries[0];
    if |entries| == 1 {
      EntryIsRead(x, "", current);
      assert Escape(x) + "" == Escape(x);
    } else {
      hide Pieces;
      var more := entries[1..];
      var rest := "," + Print(more);
      EntryIsRead(x, rest, current);
      assert Escape(x) + rest == Print(entries);
      assert rest[1..] == Print(more);
      var g := Glued(more);
      if EndsInBackslash(x) {
        var head := x[..|x| - 1];
        PrintedIsReadGlued(more, current + head + ",");
        assert current + head + "," + g[0] == current + (head + "," + g[0]);
      } else {
        PrintedIsReadGlued(more, "");
        assert "" + g[0] == g[0];
        StepSplits(rest, current + x);
        assert Glued(entries) == [x] + g;
      }
    }
  }

  /** Every text is what some entries print, so the lemma above says how any text is read. */
  lemma {:induction false} EveryTextIsPrinted(s: string) returns (entries: seq<string>)
    ensures entries != [] && Print(entries) == s
  {
    if s == "" {
      entries := [""];
    } else {
      var rest := EveryTextIsPrinted(s[1..]);
      assert s == [s[0]] + s[1..];
      if s[0] == ',' {
        entries := [""] + rest;
      } else {
        entries := [[s[0]] + rest[0]] + rest[1..];
        assert ([s[0]] + rest[0])[1..] == rest[0];
        assert Escape([s[0]] + rest[0]) == [s[0]] + Escape(rest[0]);
        assert entries[1..] == rest[1..];
      }
    }
  }

  lemma PrintsNothingExactly(entries: seq<string>)
    ensures Print(entries) == "" <==> entries == [] || entries == [""]
  {
  }

  /** No entry but the last ends in a backslash. */
  ghost predicate Apart(entries: seq<string>) {
    forall i :: 0 <= i < |entries| - 1 ==> !EndsInBackslash(entries[i])
  }

  lemma {:induction false} GluedExactly(entries: seq<string>)
    requires entries != []
    ensures if Apart(entries) then Glued(entries) == entries else |Glued(entries)| < |entries|
  {
    if |entries| > 1 {
      var more := entries[1..];
      GluedExactly(more);
      if Apart(more) {
        assert forall i :: 0 < i < |entries| - 1 ==> entries[i] == more[i - 1];
        assert Apart(entries) <==> !EndsInBackslash(entries[0]);
        assert entries == [entries[0]] + more;
      } else {
        var i :| 0 <= i < |more| - 1 && EndsInBackslash(more[i]);
        assert entries[i + 1] == more[i];
      }
    }
  }

  /** Printing a list and splitting it again gives the list back exactly when it is empty, or is not
      one blank entry, its entries are trimmed, and only the last may end in a backslash. */
  lemma RoundTripExactly(entries: seq<string>)
    ensures Split(Print(entries), ",") == entries <==>
            || entries == []
            || (&& entries != [""]
                && (forall i :: 0 <= i < |entries| ==> Trimmed(entries[i]))
                && Apart(entries))
  {
    hide Trim, Pieces, Print, Glued, Apart, Trimmed;
    PrintsNothingExactly(entries);
    if entries != [] && entries != [""] {
      var glued := Glued(entries);
      PrintedIsReadGlued(entries, "");
      assert "" + glued[0] == glued[0];
      TrimAllSplits(glued);
      GluedExactly(entries);
      forall i | 0 <= i < |entries|
        ensures Trim(entries[i]) == entries[i] <==> Trimmed(entries[i])
      {
        TrimmedExactly(entries[i]);
      }
    }
  }

  lemma TrimAllSplits(entries: seq<string>)
    requires entries != []
    ensures TrimAll(entries) == [Trim(entries[0])] + TrimAll(entries[1..])
  {
  }

  // -- Reading the settings ----------------------------------------------------------------

  /** The entries that say something, trimmed, in their order. */
  function NonBlank(parts: seq<string>): seq<string> {
    if parts == [] then []
    else
      var part := Trim(parts[|parts| - 1]);
      NonBlank(parts[..|parts| - 1]) + if part == "" then [] else [part]
  }

  lemma BlankExactly(part: string)
    ensures Trim(part) == "" <==> AllSpace(part)
  {
    var before, after := TrimCuts(part);
    TrimmedExactly(part);
    if Trim(part) == "" {
      assert part == before + after;
    } else {
      assert Trim(part)[0] in part;
    }
  }

  /** Which entries are kept, and where each stood: all that are not blank, in their order. */
  lemma {:induction false} NonBlankAre(parts: seq<string>) returns (at: seq<nat>)
    ensures |at| == |NonBlank(parts)|
    ensures forall i :: 0 <= i < |at| ==> at[i] < |parts| && NonBlank(parts)[i] == Trim(parts[at[i]])
    ensures forall i, j :: 0 <= i < j < |at| ==> at[i] < at[j]
    ensures forall n :: 0 <= n < |parts| ==> (n in at <==> !AllSpace(parts[n]))
  {
    hide Trim, AllSpace;
    if parts == [] {
      at := [];
    } else {
      var before, last := parts[..|parts| - 1], |parts| - 1;
      at := NonBlankAre(before);
      BlankExactly(parts[last]);
      if Trim(parts[last]) != "" {
        at := at + [last];
      }
    }
  }

  datatype RuleError =
    | Empty
    | NoEquals(part: string)
    | NoPointer(part: string)
    | NoValue(part: string)

  /** A list that is set holds every entry that is not blank, and there must be one. */
  method ParseAllowList(raw: string, split: string -> seq<string>) returns (r: Result<seq<string>, RuleError>)
    ensures r == if raw == "" then Ok([])
                 else if NonBlank(split(raw)) == [] then Err(Empty)
                 else Ok(NonBlank(split(raw)))
  {
    if raw == "" {
      return Ok([]);
    }
    var parts, entries := split(raw), [];
    for i := 0 to |parts|
      invariant entries == NonBlank(parts[..i])
    {
      assert parts[..i + 1][..i] == parts[..i];
      var entry := Trim(parts[i]);
      if entry != "" {
        entries := entries + [entry];
      }
    }
    assert parts[..|parts|] == parts;
    r := if |entries| == 0 then Err(Empty) else Ok(entries);
  }

  /** A JSON pointer into the userinfo response, and a value it may have. */
  datatype Rule = Rule(key: string, value: string)

  function Cut(s: string, c: char): Option<(string, string)> {
    if s == "" then None
    else if s[0] == c then Some(("", s[1..]))
    else
      match Cut(s[1..], c)
      case None => None
      case Some((before, after)) => Some(([s[0]] + before, after))
  }

  function ReadRule(part: string): Result<Rule, RuleError> {
    match Cut(part, '=')
    case None => Err(NoEquals(part))
    case Some((key, value)) =>
      if !HasPrefix(Trim(key), "/") then Err(NoPointer(part))
      else if Trim(value) == "" then Err(NoValue(part))
      else Ok(Rule(Trim(key), Trim(value)))
  }

  lemma {:induction false} CutSplits(s: string, c: char)
    ensures Cut(s, c).None? <==> c !in s
    ensures Cut(s, c).Some? ==>
              var (before, after) := Cut(s, c).value; s == before + [c] + after && c !in before
  {
    if s != "" && s[0] != c {
      CutSplits(s[1..], c);
      assert s == [s[0]] + s[1..];
    }
  }

  lemma {:induction false} CutFinds(before: string, c: char, after: string)
    requires c !in before
    ensures Cut(before + [c] + after, c) == Some((before, after))
  {
    var s := before + [c] + after;
    if before == "" {
      assert s[1..] == after;
    } else {
      assert s[1..] == before[1..] + [c] + after;
      CutFinds(before[1..], c, after);
      assert before == [before[0]] + before[1..];
    }
  }

  /** A rule is read from exactly the entries whose text before the first equals sign is, trimmed, a
      pointer, and whose text after it is not blank; every other entry is refused for the first of the
      three that it lacks. */
  lemma ReadRuleExactly(part: string, key: string, value: string)
    ensures '=' !in part <==> ReadRule(part) == Err(NoEquals(part))
    ensures part == key + "=" + value && '=' !in key ==>
              ReadRule(part) ==
              if Trim(key) == "" || Trim(key)[0] != '/' then Err(NoPointer(part))
              else if AllSpace(value) then Err(NoValue(part))
              else Ok(Rule(Trim(key), Trim(value)))
  {
    hide Trim;
    CutSplits(part, '=');
    BlankExactly(value);
    if part == key + "=" + value && '=' !in key {
      CutFinds(key, '=', value);
    }
  }

  /** All the rules, or the first entry that is none. */
  function ReadRules(parts: seq<string>): Result<seq<Rule>, RuleError> {
    if parts == [] then Ok([])
    else
      var rules :- ReadRules(parts[..|parts| - 1]);
      var rule :- ReadRule(parts[|parts| - 1]);
      Ok(rules + [rule])
  }

  function RulesIn(setting: string): Result<seq<Rule>, RuleError> {
    ReadRules(NonBlank(Split(setting, ",")))
  }

  function ValuesOf(rules: seq<Rule>, key: string): seq<string> {
    if rules == [] then []
    else
      var last := rules[|rules| - 1];
      ValuesOf(rules[..|rules| - 1], key) + if last.key == key then [last.value] else []
  }

  function KeysOf(rules: seq<Rule>): set<string> {
    set rule | rule in rules :: rule.key
  }

  /** Per key, its values in the order they were written. */
  function Grouped(rules: seq<Rule>): map<string, seq<string>> {
    map key | key in KeysOf(rules) :: ValuesOf(rules, key)
  }

  lemma {:induction false} ValuesAre(rules: seq<Rule>, key: string) returns (at: seq<nat>)
    ensures |at| == |ValuesOf(rules, key)|
    ensures forall i :: 0 <= i < |at| ==> at[i] < |rules| && ValuesOf(rules, key)[i] == rules[at[i]].value
    ensures forall i, j :: 0 <= i < j < |at| ==> at[i] < at[j]
    ensures forall n :: 0 <= n < |rules| ==> (n in at <==> rules[n].key == key)
  {
    if rules == [] {
      at := [];
    } else {
      var before, last := rules[..|rules| - 1], |rules| - 1;
      at := ValuesAre(before, key);
      if rules[last].key == key {
        at := at + [last];
      }
    }
  }

  /** The list of a key holds the values of its rules in the order they were written, and a key has a
      list exactly when some rule has it. */
  lemma GroupedAre(rules: seq<Rule>, key: string) returns (at: seq<nat>)
    ensures key in Grouped(rules) <==> exists n :: 0 <= n < |rules| && rules[n].key == key
    ensures key in Grouped(rules) ==>
              && |at| == |Grouped(rules)[key]|
              && forall i :: 0 <= i < |at| ==> at[i] < |rules| && Grouped(rules)[key][i] == rules[at[i]].value
    ensures forall i, j :: 0 <= i < j < |at| ==> at[i] < at[j]
    ensures forall n :: 0 <= n < |rules| ==> (n in at <==> rules[n].key == key)
  {
    hide ValuesOf;
    at := ValuesAre(rules, key);
  }

  lemma GroupedEmptyExactly(rules: seq<Rule>)
    ensures Grouped(rules) == map[] <==> rules == []
  {
    if rules != [] {
      assert rules[0].key in Grouped(rules);
    }
  }

  lemma GroupedAdds(rules: seq<Rule>, rule: Rule)
    ensures var before := Grouped(rules);
            Grouped(rules + [rule]) ==
            before[rule.key := (if rule.key in before then before[rule.key] else []) + [rule.value]]
  {
    hide ValuesOf;
    var before, after := Grouped(rules), Grouped(rules + [rule]);
    var expected := before[rule.key := (if rule.key in before then before[rule.key] else []) + [rule.value]];
    assert KeysOf(rules + [rule]) == KeysOf(rules) + {rule.key};
    forall key | key in expected
      ensures after[key] == expected[key]
    {
      ValuesAdd(rules, rule, key);
      NoValues(rules, key);
      assert ValuesOf(rules, key) + [] == ValuesOf(rules, key);
    }
  }

  lemma ValuesAdd(rules: seq<Rule>, rule: Rule, key: string)
    ensures ValuesOf(rules + [rule], key) == ValuesOf(rules, key) + if rule.key == key then [rule.value] else []
  {
    assert (rules + [rule])[..|rules|] == rules;
  }

  lemma {:induction false} NoValues(rules: seq<Rule>, key: string)
    ensures key !in KeysOf(rules) <==> ValuesOf(rules, key) == []
  {
    if rules != [] {
      var before, last := rules[..|rules| - 1], rules[|rules| - 1];
      NoValues(before, key);
      assert rules == before + [last];
      assert KeysOf(rules) == KeysOf(before) + {last.key};
    }
  }

  function Lengths(m: map<string, seq<string>>): map<string, nat> {
    map key | key in m :: |m[key]|
  }

  /** The lists of the parsed map hold, together, one value for every rule that was written. */
  lemma {:induction false} NoRuleIsLost(rules: seq<Rule>)
    ensures Sum(Lengths(Grouped(rules))) == |rules|
    ensures forall key :: key in Grouped(rules) ==> Grouped(rules)[key] != []
  {
    hide Grouped;
    if rules == [] {
      GroupedEmptyExactly(rules);
      assert Lengths(Grouped(rules)) == map[];
    } else {
      var before, rule := rules[..|rules| - 1], rules[|rules| - 1];
      assert rules == before + [rule];
      NoRuleIsLost(before);
      GroupedAdds(before, rule);
      var lengths := Lengths(Grouped(before));
      var n := if rule.key in lengths then lengths[rule.key] else 0;
      SumUpdates(lengths, rule.key, n + 1);
      assert Lengths(Grouped(rules)) == lengths[rule.key := n + 1];
    }
  }

  /** Reading the entries yields a rule for each, in their order, or the error of the first that is
      none. */
  lemma {:induction false} EveryEntryIsRead(parts: seq<string>)
    ensures ReadRules(parts).Ok? <==> forall i :: 0 <= i < |parts| ==> ReadRule(parts[i]).Ok?
    ensures ReadRules(parts).Ok? ==>
              && |ReadRules(parts).value| == |parts|
              && forall i :: 0 <= i < |parts| ==> ReadRule(parts[i]) == Ok(ReadRules(parts).value[i])
    ensures ReadRules(parts).Err? ==>
              exists i :: 0 <= i < |parts| && ReadRule(parts[i]) == Err(ReadRules(parts).error)
                          && forall j :: 0 <= j < i ==> ReadRule(parts[j]).Ok?
  {
    hide ReadRule;
    if parts != [] {
      var before, n := parts[..|parts| - 1], |parts| - 1;
      EveryEntryIsRead(before);
      assert forall i :: 0 <= i < n ==> parts[i] == before[i];
      if ReadRules(before).Err? {
        var i :| 0 <= i < n && ReadRule(before[i]) == Err(ReadRules(before).error)
                 && forall j :: 0 <= j < i ==> ReadRule(before[j]).Ok?;
        assert ReadRule(parts[i]).Err?;
      }
    }
  }

  lemma NothingToRead()
    ensures ReadRules(NonBlank([])) == Ok([])
  {
  }

  lemma OneMorePart(parts: seq<string>, i: nat)
    requires i < |parts|
    ensures var entries, part := NonBlank(parts[..i]), Trim(parts[i]);
            && NonBlank(parts[..i + 1]) == (if part == "" then entries else entries + [part])
            && (part != "" && ReadRules(entries).Ok? ==>
                  ReadRules(NonBlank(parts[..i + 1])) ==
                  match ReadRule(part)
                  case Err(e) => Err(e)
                  case Ok(rule) => Ok(ReadRules(entries).value + [rule]))
            && (ReadRules(entries).Err? ==> ReadRules(NonBlank(parts[..i + 1])) == ReadRules(entries))
  {
    hide Trim, ReadRule;
    assert parts[..i + 1][..i] == parts[..i];
    var entries, part := NonBlank(parts[..i]), Trim(parts[i]);
    if part != "" {
      assert (entries + [part])[..|entries|] == entries;
    }
  }

  lemma {:induction false} FirstErrorStands(parts: seq<string>, i: nat)
    requires i <= |parts| && ReadRules(NonBlank(parts[..i])).Err?
    ensures ReadRules(NonBlank(parts)) == ReadRules(NonBlank(parts[..i]))
    decreases |parts| - i
  {
    if i == |parts| {
      assert parts[..i] == parts;
    } else {
      OneMorePart(parts, i);
      FirstErrorStands(parts, i + 1);
    }
  }

  /** Either an error, or a map of lists that hold every entry that is not blank and nothing else. */
  method ParseAttributeMap(s: string) returns (r: Result<map<string, seq<string>>, RuleError>)
    ensures r == if s == "" then Ok(map[])
                 else
                   match RulesIn(s)
                   case Err(e) => Err(e)
                   case Ok(rules) => if rules == [] then Err(Empty) else Ok(Grouped(rules))
    ensures s != "" && r.Ok? ==> r.value != map[] && Sum(Lengths(r.value)) == |NonBlank(Split(s, ","))|
  {
    hide Trim, Split, Grouped, NonBlank, ReadRules;
    if s == "" {
      return Ok(map[]);
    }
    var parts := SplitWithEscapes(s, ",");
    var result: map<string, seq<string>> := map[];
    ghost var rules: seq<Rule> := [];
    GroupedEmptyExactly([]);
    NothingToRead();
    for i := 0 to |parts|
      invariant ReadRules(NonBlank(parts[..i])) == Ok(rules)
      invariant result == Grouped(rules)
    {
      OneMorePart(parts, i);
      if ReadRules(NonBlank(parts[..i + 1])).Err? {
        FirstErrorStands(parts, i + 1);
      }
      var part := Trim(parts[i]);
      if part == "" {
        continue;
      }
      match Cut(part, '=') {
        case None =>
          return Err(NoEquals(part));
        case Some((k, v)) =>
          var key, value := Trim(k), Trim(v);
          if !HasPrefix(key, "/") {
            return Err(NoPointer(part));
          } else if value == "" {
            return Err(NoValue(part));
          }
          GroupedAdds(rules, Rule(key, value));
          rules := rules + [Rule(key, value)];
          result := result[key := (if key in result then result[key] else []) + [value]];
      }
    }
    assert parts[..|parts|] == parts;
    GroupedEmptyExactly(rules);
    NoRuleIsLost(rules);
    EveryEntryIsRead(NonBlank(parts));
    r := if |result| == 0 then Err(Empty) else Ok(result);
  }

  // -- Rules, printed and read back --------------------------------------------------------

  /** A rule that its printed form gives back. */
  predicate Writable(rule: Rule) {
    && HasPrefix(rule.key, "/") && '=' !in rule.key && Trimmed(rule.key)
    && rule.value != "" && Trimmed(rule.value)
  }

  function PrintRule(rule: Rule): string {
    rule.key + "=" + rule.value
  }

  lemma {:induction false} TrimKeepsOut(s: string, c: char)
    requires c !in s
    ensures c !in Trim(s)
  {
    if s != "" && !Trimmed(s) {
      TrimKeepsOut(if IsSpace(s[0]) then s[1..] else s[..|s| - 1], c);
    }
  }

  lemma ReadRuleIsWritable(part: string)
    ensures ReadRule(part).Ok? ==> Writable(ReadRule(part).value)
  {
    hide Trim, HasPrefix, Trimmed;
    CutSplits(part, '=');
    if Cut(part, '=').Some? {
      var (key, value) := Cut(part, '=').value;
      TrimKeepsOut(key, '=');
      TrimmedExactly(key);
      TrimmedExactly(value);
    }
  }

  lemma WritableIsRead(rule: Rule)
    requires Writable(rule)
    ensures ReadRule(PrintRule(rule)) == Ok(rule) && Trimmed(PrintRule(rule))
  {
    hide Trim;
    CutFinds(rule.key, '=', rule.value);
    TrimmedExactly(rule.key);
    TrimmedExactly(rule.value);
    var part := PrintRule(rule);
    assert part[0] == rule.key[0] && part[|part| - 1] == rule.value[|rule.value| - 1];
  }

  function PrintRules(rules: seq<Rule>): (r: seq<string>)
    ensures |r| == |rules|
    ensures forall i :: 0 <= i < |r| ==> r[i] == PrintRule(rules[i])
  {
    seq(|rules|, i requires 0 <= i < |rules| => PrintRule(rules[i]))
  }

  lemma {:induction false} NonBlankOfTrimmed(parts: seq<string>)
    ensures |NonBlank(parts)| <= |parts|
    ensures (forall i :: 0 <= i < |parts| ==> parts[i] != "" && Trimmed(parts[i])) ==> NonBlank(parts) == parts
  {
    hide Trim, Trimmed;
    if parts != [] {
      NonBlankOfTrimmed(parts[..|parts| - 1]);
      TrimmedExactly(parts[|parts| - 1]);
    }
  }

  function Setting(rules: seq<Rule>): string {
    Print(PrintRules(rules))
  }

  lemma WritableSettingIsRead(rules: seq<Rule>)
    requires forall i :: 0 <= i < |rules| ==> Writable(rules[i])
    requires Apart(PrintRules(rules))
    ensures RulesIn(Setting(rules)) == Ok(rules)
  {
    hide Writable, Split, Print, Apart, Trimmed, ReadRule, PrintRule, NonBlank, ReadRules;
    var entries := PrintRules(rules);
    forall i | 0 <= i < |rules|
      ensures ReadRule(entries[i]) == Ok(rules[i]) && Trimmed(entries[i]) && entries[i] != ""
    {
      WritableIsRead(rules[i]);
      PrintedHasEquals(rules[i]);
    }
    RoundTripExactly(entries);
    assert rules != [] ==> entries[0] != "";
    assert Split(Print(entries), ",") == entries;
    NonBlankOfTrimmed(entries);
    EveryEntryIsRead(entries);
    assert ReadRules(entries).value == rules;
  }

  lemma PrintedHasEquals(rule: Rule)
    ensures PrintRule(rule) != ""
  {
  }

  lemma ReadSettingIsWritable(rules: seq<Rule>)
    requires RulesIn(Setting(rules)) == Ok(rules)
    ensures forall i :: 0 <= i < |rules| ==> Writable(rules[i])
    ensures Apart(PrintRules(rules))
  {
    hide Writable, Pieces, Print, ReadRule, PrintRule, NonBlank, ReadRules, Glued;
    var entries := PrintRules(rules);
    var read := NonBlank(Split(Setting(rules), ","));
    EveryEntryIsRead(read);
    forall i | 0 <= i < |rules|
      ensures Writable(rules[i])
    {
      ReadRuleIsWritable(read[i]);
    }
    if rules != [] {
      PrintedHasEquals(rules[0]);
      PrintsNothingExactly(entries);
      PrintedIsReadGlued(entries, "");
      NonBlankOfTrimmed(Split(Setting(rules), ","));
      GluedExactly(entries);
    }
  }

  /** Writing rules as a setting and reading it gives the same rules exactly when every rule is
      writable and only the last printed rule may end in a backslash. */
  lemma SettingRoundTripExactly(rules: seq<Rule>)
    ensures RulesIn(Setting(rules)) == Ok(rules) <==>
            (forall i :: 0 <= i < |rules| ==> Writable(rules[i])) && Apart(PrintRules(rules))
  {
    hide Writable, Apart, RulesIn, Setting, PrintRules;
    if RulesIn(Setting(rules)) == Ok(rules) {
      ReadSettingIsWritable(rules);
    }
    if (forall i :: 0 <= i < |rules| ==> Writable(rules[i])) && Apart(PrintRules(rules)) {
      WritableSettingIsRead(rules);
    }
  }
}
