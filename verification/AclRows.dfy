// The rows of the ACL map file: the recognisers of the parser, the rows `create` prints, and
// what the first make of the second.
module AclRows {
  import opened Wrappers
  import opened Text

  /** `\s+` at the start: the rest after all of the white space. */
  function AfterSpace(s: string): Option<string> {
    if s == [] || !IsSpace(s[0]) then None else Some(s[SpaceEnd(s)..])
  }

  /** A literal at the start: the rest after it. */
  function AfterWord(s: Option<string>, word: string): Option<string> {
    if s.Some? && word <= s.value then Some(s.value[|word|..]) else None
  }

  function AfterSpaces(s: Option<string>): Option<string> {
    if s.Some? then AfterSpace(s.value) else None
  }

  // The variables of the map, `$remote_user:$http_x_node_proxy_port` and `$access_status`.
  const MAP_KEY := "$remote_user" + ":$http_x" + "_node_proxy" + "_port"
  const MAP_RESULT := "$access_status"

  predicate IsMapRow(row: string) {
    var user := AfterSpaces(AfterWord(Some(row), "map"));
    var status := AfterSpaces(AfterWord(user, MAP_KEY));
    AfterWord(AfterSpaces(AfterWord(status, MAP_RESULT)), "{").Some?
  }

  predicate IsBraceRow(row: string) {
    row != [] && row[0] == '}'
  }

  predicate IsDefaultRow(row: string) {
    AfterWord(AfterSpaces(AfterWord(AfterSpace(row), "default")), "403;").Some?
  }

  /** `^\s+(.+)\s+200;$\s*$`: the text between the leading white space and the last white space
      before a closing `200;`. The greedy leading run gives one character back when it must. */
  function RuleOf(row: string): (rule: Option<string>)
    ensures rule.Some? ==> rule.value != []
  {
    var e := |row| - 5;
    if e < 2 || !IsSpace(row[0]) || !IsSpace(row[e]) || row[e + 1..] != "200;" then None
    else
      var start := if SpaceEnd(row) < e then SpaceEnd(row) else e - 1;
      if start == 0 then None else Some(row[start..e])
  }

  /** `[^s]+`: everything before the first letter `s`. */
  function UpToS(s: string): (r: string)
    ensures r <= s && 's' !in r && (r == s <==> 's' !in s)
  {
    if s == [] || s[0] == 's' then [] else [s[0]] + UpToS(s[1..])
  }

  /** `^\s+([^s]+)`: the captured text. When nothing but white space precedes an `s` or the end,
      the greedy white space gives its last character to the capture. */
  function Capture(s: string): Option<string> {
    var k := SpaceEnd(s);
    if k == 0 then None
    else if UpToS(s[k..]) != [] then Some(UpToS(s[k..]))
    else if k == 1 then None
    else Some([s[k - 1]])
  }

  /** `^\s+###\s+TAG\s+([^s]+)`. */
  function TagOf(row: string, tag: string): Option<string> {
    var rest := AfterWord(AfterSpaces(AfterWord(AfterSpace(row), "###")), tag);
    if rest.None? then None else Capture(rest.value)
  }

  const ID := "id:"
  const USER_ID := "userId:"
  const DATE := "date:"
  const ALL_USERS := "-"

  // What `create` prints.

  function TagRow(tag: string, value: string): string {
    "    ### " + tag + " " + value
  }

  function RuleRow(rule: string): string {
    "    " + rule + " 200;"
  }

  /** The text an id or a user id keeps through the file: not empty, no white space around it
      and no letter `s`, since the parser says `[^s]` where `\S` was meant. */
  predicate Survives(value: string) {
    value != [] && 's' !in value && Trim(value) == value
  }

  lemma WordAfterSpaces(sp: string, word: string, rest: string)
    requires AllSpace(sp) && sp != [] && (word + rest == [] || !IsSpace((word + rest)[0]))
    ensures AfterSpace(sp + word + rest) == Some(word + rest)
    ensures AfterWord(Some(word + rest), word) == Some(rest)
  {
    assert sp + word + rest == sp + (word + rest);
    SpaceEndOf(sp, word + rest);
    assert (sp + (word + rest))[0] == sp[0];
    assert (sp + (word + rest))[|sp|..] == word + rest;
    assert (word + rest)[|word|..] == rest;
  }

  /** Up to the tag, a printed tag row reads the same whatever tag it is matched against. */
  lemma TagRowPrefix(tag: string, value: string)
    requires tag != [] && !IsSpace(tag[0])
    ensures AfterSpaces(AfterWord(AfterSpace(TagRow(tag, value)), "###")) == Some(tag + " " + value)
  {
    var tail := tag + " " + value;
    assert TagRow(tag, value) == "    " + "###" + (" " + tail);
    WordAfterSpaces("    ", "###", " " + tail);
    assert " " + tail == " " + tail + "";
    assert tail[0] == tag[0];
    WordAfterSpaces(" ", tail, "");
    assert tail + "" == tail;
  }

  lemma CaptureOfWord(value: string)
    requires value != [] && !IsSpace(value[0])
    ensures Capture(" " + value) == if UpToS(value) == [] then None else Some(UpToS(value))
  {
    SpaceEndOf(" ", value);
    assert (" " + value)[1..] == value;
  }

  lemma CaptureTrimsShort(value: string)
    requires value == [] || IsSpace(value[0])
    ensures Capture(" " + value).Some? ==> Trim(Capture(" " + value).value) != value
  {
    if value == [] {
      SpaceEndOf(" ", "");
      assert " " + value == " " + "" && (" " + value)[1..] == [];
    } else if Capture(" " + value).Some? {
      TrimShape(Capture(" " + value).value);
    }
  }

  lemma CaptureRoundTrip(value: string)
    ensures (Capture(" " + value).Some? && Trim(Capture(" " + value).value) == value) <==> Survives(value)
    ensures Survives(value) ==> Capture(" " + value) == Some(value)
  {
    TrimShape(value);
    if value == [] || IsSpace(value[0]) {
      CaptureTrimsShort(value);
    } else {
      CaptureOfWord(value);
      TrimShape(UpToS(value));
    }
  }

  lemma TagRowCapture(tag: string, value: string)
    requires tag != [] && !IsSpace(tag[0])
    ensures TagOf(TagRow(tag, value), tag) == Capture(" " + value)
  {
    TagRowPrefix(tag, value);
    var rest := " " + value;
    assert tag + " " + value == tag + rest;
    assert (tag + rest)[|tag|..] == rest;
  }

  /** The id read back from a printed row is the id exactly when `Survives` holds of it. */
  lemma TagRoundTrip(tag: string, value: string)
    requires tag in [ID, USER_ID, DATE]
    ensures (TagOf(TagRow(tag, value), tag).Some? && Trim(TagOf(TagRow(tag, value), tag).value) == value)
            <==> Survives(value)
    ensures Survives(value) ==> TagOf(TagRow(tag, value), tag) == Some(value)
  {
    TagRowCapture(tag, value);
    CaptureRoundTrip(value);
  }

  /** A row printed under one tag is not read under another. */
  lemma OtherTags(tag: string, other: string, value: string)
    requires tag in [ID, USER_ID, DATE] && other in [ID, USER_ID, DATE] && tag != other
    ensures TagOf(TagRow(tag, value), other) == None
  {
    TagRowPrefix(tag, value);
    assert (tag + " " + value)[0] == tag[0];
  }

  lemma IndentedHash(rest: string)
    ensures var row := "    " + ("#" + rest);
            row != [] && !IsMapRow(row) && !IsBraceRow(row) && !IsDefaultRow(row)
  {
    var row := "    " + ("#" + rest);
    assert row[0] == ' ' && "map"[0] == 'm' && "default"[0] == 'd';
    SpaceEndOf("    ", "#" + rest);
    assert AfterSpace(row) == Some("#" + rest);
    assert ("#" + rest)[0] == '#';
  }

  lemma NoRuleEndsInWord(head: string, value: string)
    requires |head| >= 2 && !IsSpace(head[|head| - 2]) && IsSpace(head[|head| - 1])
    requires value != [] && NoSpace(value) && value != "200;"
    ensures RuleOf(head + value).None?
  {
    var row := head + value;
    var e := |row| - 5;
    if e >= |head| {
      assert row[e] == value[e - |head|];
    } else if e == |head| - 1 {
      assert row[e + 1..] == value;
    } else if e >= 0 {
      // The white space before the value lies inside what should be the closing `200;`.
      assert row[e + 1..][|head| - 2 - e] == row[|head| - 1];
      assert NoSpace("200;");
    }
  }

  /** A printed tag row is none of the structural rows, nor a rule. */
  lemma TagRowKind(tag: string, value: string)
    requires tag in [ID, USER_ID, DATE] && value != [] && NoSpace(value) && value != "200;"
    ensures var row := TagRow(tag, value);
            row != [] && !IsMapRow(row) && !IsBraceRow(row) && !IsDefaultRow(row) && RuleOf(row).None?
  {
    var row := TagRow(tag, value);
    assert row == "    " + ("#" + ("## " + tag + " " + value));
    IndentedHash("## " + tag + " " + value);
    var head := "    ### " + tag + " ";
    assert row == head + value;
    assert tag[|tag| - 1] == ':' && head[|head| - 2] == ':' && head[|head| - 1] == ' ';
    NoRuleEndsInWord(head, value);
  }

  lemma RuleRowIsRule(rule: string)
    requires rule != [] && !IsSpace(rule[0])
    ensures RuleOf(RuleRow(rule)) == Some(rule)
  {
    var row := RuleRow(rule);
    assert row == "    " + (rule + " 200;");
    SpaceEndOf("    ", rule + " 200;");
    assert row[4..|row| - 5] == rule;
    assert row[|row| - 4..] == "200;";
  }

  lemma RuleRowKind(rule: string)
    requires rule != [] && NoSpace(rule)
    ensures var row := RuleRow(rule);
            row != [] && !IsMapRow(row) && !IsBraceRow(row) && !IsDefaultRow(row)
  {
    var row := RuleRow(rule);
    assert row[0] == ' ';
    assert row == "    " + (rule + " 200;") + "";
    WordAfterSpaces("    ", rule + " 200;", "");
    assert AfterSpace(row) == Some(rule + " 200;" + "");
    var rest := rule + " 200;" + "";
    if "default" <= rest {
      var tail := rest[7..];
      if |rule| > 7 {
        assert tail[0] == rule[7];
      } else {
        // `default` takes the whole rule, and `403;` cannot follow.
        if |rule| < 7 {
          assert rest[|rule|] == ' ' && rest[|rule|] == "default"[|rule|];
        } else {
          assert tail == " " + "200;" + "";
          WordAfterSpaces(" ", "200;", "");
        }
      }
    }
  }
}
