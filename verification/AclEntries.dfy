// ACL entries: the rule text `create` prints for each kind of access, and reading it back.
module AclEntries {
  import opened Wrappers
  import opened Text
  import opened AclRows
  import opened AclFile

  /** An entry as the repository hands it out: no user is everyone, no ports is mode ALL. */
  datatype Entry = Entry(id: string, user: Option<string>, ports: Option<seq<nat>>, date: Option<nat>)

  /** The last `:` of `s` before position `n` and not before `lo`, with a character after it. */
  function LastColon(s: string, n: nat, lo: nat, digitAfter: bool): (k: Option<nat>)
    requires n <= |s|
    ensures k.Some? ==> lo <= k.value && k.value + 1 < |s| && (digitAfter ==> IsDigit(s[k.value + 1]))
  {
    if n <= lo then None
    else if s[n - 1] == ':' && n < |s| && (digitAfter ==> IsDigit(s[n])) then Some(n - 1)
    else LastColon(s, n - 1, lo, digitAfter)
  }

  lemma {:induction false} LastColonAt(s: string, n: nat, lo: nat, digitAfter: bool, k: nat)
    requires lo <= k < n <= |s| && s[k] == ':' && k + 1 < |s| && (digitAfter ==> IsDigit(s[k + 1]))
    requires forall i :: k < i < n ==> s[i] != ':'
    ensures LastColon(s, n, lo, digitAfter) == Some(k)
    decreases n
  {
    if n - 1 > k {
      LastColonAt(s, n - 1, lo, digitAfter, k);
    }
  }

  function DigitRun(s: string): (r: string)
    ensures r <= s && AllDigits(r) && (AllDigits(s) ==> r == s)
  {
    if s == [] || !IsDigit(s[0]) then [] else [s[0]] + DigitRun(s[1..])
  }

  /** `^.+:([0-9]+)` on a rule without `~`. */
  function OnePort(rule: string): Option<nat> {
    var k := LastColon(rule, |rule|, 1, true);
    if k.None? then None else Some(NumberOf(DigitRun(rule[k.value + 1..])))
  }

  /** `^\((.+)\)$` replaced by what is inside. */
  function StripParens(s: string): string {
    if |s| >= 3 && s[0] == '(' && s[|s| - 1] == ')' then s[1..|s| - 1] else s
  }

  function PortFrom(part: string): Option<nat> {
    var s := StripParens(Trim(part));
    if s != [] && AllDigits(s) then Some(NumberOf(s)) else None
  }

  function PortsFrom(parts: seq<string>): Option<seq<nat>> {
    if parts == [] then Some([])
    else
      var rest := PortsFrom(parts[1..]);
      if PortFrom(parts[0]).None? || rest.None? then None
      else Some([PortFrom(parts[0]).value] + rest.value)
  }

  /** The parts between `|`: fewer than two parts are access to all ports. */
  function PortList(text: string): Option<Option<seq<nat>>> {
    var parts := Split(StripParens(Trim(text)), '|');
    if |parts| == 1 then Some(None)
    else if PortsFrom(parts).None? then None
    else Some(Some(PortsFrom(parts).value))
  }

  /** `^~.+:(.+)` on a rule with `~`. */
  function RegexPorts(rule: string): Option<Option<seq<nat>>>
    requires rule != []
  {
    var k := LastColon(rule, |rule|, 2, false);
    if rule[0] != '~' || k.None? then None else PortList(rule[k.value + 1..])
  }

  function DateFrom(date: string): Option<nat> {
    if date != [] && AllDigits(date) then Some(NumberOf(date)) else None
  }

  /** An entry of the file as `getAll` reads it; `None` where it throws. */
  function Decode(raw: Raw): Option<Entry> {
    if raw.userId == ALL_USERS then Some(Entry(raw.id, None, None, DateFrom(raw.date)))
    else if raw.rule == [] then None
    else if raw.rule[0] != '~' then
      var port := OnePort(raw.rule);
      if port.None? then None else Some(Entry(raw.id, Some(raw.userId), Some([port.value]), DateFrom(raw.date)))
    else
      var ports := RegexPorts(raw.rule);
      if ports.None? then None else Some(Entry(raw.id, Some(raw.userId), ports.value, DateFrom(raw.date)))
  }

  function Numerals(ports: seq<nat>): (parts: seq<string>)
    ensures |parts| == |ports|
    ensures forall i :: 0 <= i < |ports| ==> parts[i] == Numeral(ports[i])
  {
    seq(|ports|, i requires 0 <= i < |ports| => Numeral(ports[i]))
  }

  /** The text between the indentation and ` 200;`; a user is given by name. */
  function RuleText(username: Option<string>, ports: Option<seq<nat>>): string {
    match (username, ports)
    case (None, _) => "~.+:[0-9]+"
    case (Some(name), None) => "~" + name + ":[0-9]+"
    case (Some(name), Some(list)) =>
      if |list| == 1 then name + ":" + Numeral(list[0])
      else "~" + name + ":(" + Join(Numerals(list), '|') + ")"
  }

  predicate Plain(s: string) {
    NoSpace(s) && ':' !in s
  }

  lemma DigitsArePlain(s: string)
    requires AllDigits(s)
    ensures Plain(s) && '|' !in s && '\n' !in s && Trim(s) == s && 's' !in s && StripParens(s) == s
  {
    TrimOfNoSpace(s);
  }

  lemma {:induction false} JoinedNumerals(ports: seq<nat>)
    requires ports != []
    ensures Plain(Join(Numerals(ports), '|')) && Join(Numerals(ports), '|') != []
    ensures forall i :: 0 <= i < |Join(Numerals(ports), '|')| ==>
              IsDigit(Join(Numerals(ports), '|')[i]) || Join(Numerals(ports), '|')[i] == '|'
  {
    DigitsArePlain(Numeral(ports[0]));
    if |ports| > 1 {
      JoinedNumerals(ports[1..]);
      assert Numerals(ports)[1..] == Numerals(ports[1..]);
    }
  }

  lemma {:induction false} PortsFromNumerals(ports: seq<nat>)
    ensures PortsFrom(Numerals(ports)) == Some(ports)
  {
    if ports != [] {
      PortsFromNumerals(ports[1..]);
      assert Numerals(ports)[1..] == Numerals(ports[1..]);
      DigitsArePlain(Numeral(ports[0]));
      NumeralRoundTrip(ports[0]);
      assert [ports[0]] + ports[1..] == ports;
    }
  }

  /** The last `:` of a printed rule is the one that was printed before its port text. */
  lemma PrintedColon(head: string, text: string, lo: nat, digitAfter: bool)
    requires |head| >= lo && text != [] && ':' !in text && (digitAfter ==> IsDigit(text[0]))
    ensures var rule := head + ":" + text;
            LastColon(rule, |rule|, lo, digitAfter) == Some(|head|) && rule[|head| + 1..] == text
  {
    var rule := head + ":" + text;
    forall i | |head| < i < |rule|
      ensures rule[i] != ':'
    {
      assert rule[i] == text[i - |head| - 1];
    }
    assert rule[|head| + 1..] == text;
    assert digitAfter ==> rule[|head| + 1] == text[0];
    LastColonAt(rule, |rule|, lo, digitAfter, |head|);
  }

  lemma PrintedPattern(name: string, text: string)
    requires name != [] && text != [] && ':' !in text
    ensures RegexPorts("~" + name + ":" + text) == PortList(text)
  {
    PrintedColon("~" + name, text, 2, false);
  }

  lemma AllPortsRule(name: string)
    requires name != []
    ensures RegexPorts("~" + name + ":[0-9]+") == Some(None)
  {
    hide PortList, LastColon;
    var text := "[0-9]+";
    assert "~" + name + ":[0-9]+" == "~" + name + ":" + text;
    PrintedPattern(name, text);
    AllPortsText();
  }

  lemma AllPortsText()
    ensures PortList("[0-9]+") == Some(None)
  {
    TrimOfNoSpace("[0-9]+");
    SplitOfWord("[0-9]+", '|');
  }

  lemma ManyPortsText(ports: seq<nat>)
    requires |ports| > 1
    ensures var text := "(" + Join(Numerals(ports), '|') + ")";
            PortList(text) == Some(Some(ports)) && ':' !in text
  {
    var inner := Join(Numerals(ports), '|');
    var text := "(" + inner + ")";
    JoinedNumerals(ports);
    TrimOfNoSpace(text);
    assert text[1..|text| - 1] == inner;
    assert StripParens(text) == inner;
    SplitOfJoin(Numerals(ports), '|');
    forall i | 0 <= i < |ports|
      ensures '|' !in Numerals(ports)[i]
    {
      DigitsArePlain(Numeral(ports[i]));
    }
    SplitEachOfWords(Numerals(ports), '|');
    PortsFromNumerals(ports);
  }

  lemma ManyPortsRule(name: string, ports: seq<nat>)
    requires name != [] && |ports| > 1
    ensures RegexPorts("~" + name + ":(" + Join(Numerals(ports), '|') + ")") == Some(Some(ports))
  {
    hide PortList, LastColon;
    var inner := Join(Numerals(ports), '|');
    var text := "(" + inner + ")";
    ManyPortsText(ports);
    assert "~" + name + ":(" + inner + ")" == "~" + name + ":" + text;
    PrintedPattern(name, text);
  }

  lemma OnePortRule(name: string, port: nat)
    requires name != []
    ensures OnePort(name + ":" + Numeral(port)) == Some(port)
  {
    DigitsArePlain(Numeral(port));
    PrintedColon(name, Numeral(port), 1, true);
    NumeralRoundTrip(port);
  }

  /** The raw entry the parser collects for what `create` prints. */
  function PrintedEntry(id: string, userId: string, username: Option<string>, ports: Option<seq<nat>>, date: nat): Raw {
    Printed(id, userId, Numeral(date), RuleText(username, ports))
  }

  /** A rule for one port carries no marker of its own: it is read back as that port exactly when
      the user name does not start with `~`, the marker of a pattern. */
  lemma OnePortIffNoTilde(id: string, userId: string, name: string, port: nat, date: nat)
    requires userId != ALL_USERS && name != []
    ensures Decode(PrintedEntry(id, userId, Some(name), Some([port]), date)) ==
            Some(Entry(id, Some(userId), Some([port]), Some(date)))
            <==> name[0] != '~'
  {
    var rule := name + ":" + Numeral(port);
    assert rule[0] == name[0];
    NumeralRoundTrip(date);
    if name[0] != '~' {
      OnePortRule(name, port);
    } else {
      DigitsArePlain(Numeral(port));
      if |name| >= 2 {
        PrintedColon(name, Numeral(port), 2, false);
        SplitOfWord(Numeral(port), '|');
      } else {
        NoColonAfter(rule, |rule|);
      }
    }
  }

  /** Whether `create` prints a rule that does not say what it is: one port for a name with `~`. */
  predicate ReadsAsPattern(username: Option<string>, ports: Option<seq<nat>>) {
    username.Some? && username.value != [] && username.value[0] == '~' && ports.Some? && |ports.value| == 1
  }

  /** Id, user id, date, mode and port list of a printed entry are read back intact, in all printed
      forms, exactly when it is not a rule for one port of a user name that starts with `~`. */
  lemma EntryRoundTrip(id: string, userId: string, username: Option<string>, ports: Option<seq<nat>>, date: nat)
    requires userId == ALL_USERS <==> username.None?
    requires username.Some? ==> username.value != []
    requires username.None? ==> ports.None?
    requires ports.Some? ==> ports.value != []
    ensures Decode(PrintedEntry(id, userId, username, ports, date)) ==
            Some(Entry(id, if username.None? then None else Some(userId), ports, Some(date)))
            <==> !ReadsAsPattern(username, ports)
  {
    NumeralRoundTrip(date);
    if username.Some? {
      var name := username.value;
      if ports.None? {
        AllPortsRule(name);
        assert RuleText(username, ports)[0] == '~';
      } else if |ports.value| == 1 {
        assert ports.value == [ports.value[0]];
        OnePortIffNoTilde(id, userId, name, ports.value[0], date);
      } else {
        ManyPortsRule(name, ports.value);
        assert RuleText(username, ports)[0] == '~';
      }
    }
  }

  lemma {:induction false} NoColonAfter(s: string, n: nat)
    requires n <= |s| && forall i :: 2 <= i < |s| ==> s[i] != ':'
    ensures LastColon(s, n, 2, false) == None
    decreases n
  {
    if n > 2 {
      NoColonAfter(s, n - 1);
    }
  }

  /** A printed rule is one word, so the row it stands in is read as that rule. */
  lemma RuleTextIsWord(username: Option<string>, ports: Option<seq<nat>>)
    requires username.Some? ==> Word(username.value)
    requires ports.Some? ==> ports.value != []
    ensures Word(RuleText(username, ports))
  {
    if username.Some? && ports.Some? {
      if |ports.value| == 1 {
        DigitsArePlain(Numeral(ports.value[0]));
      } else {
        JoinedNumerals(ports.value);
      }
    }
  }

  // Whom a printed rule lets in.

  /** The part before the last colon of a pattern names any user, or this one. */
  predicate NamesUser(head: string, user: string) {
    head == "~.+" || head == "~" + user
  }

  /** The part after it names any port, or lists this one between `|`. */
  predicate NamesPort(tail: string, port: nat) {
    || tail == "[0-9]+"
    || (|tail| >= 2 && tail[0] == '(' && tail[|tail| - 1] == ')' && Numeral(port) in Split(tail[1..|tail| - 1], '|'))
  }

  /** The rule lets the user in on the port: a pattern by its two parts, any other rule by being the
      user name and the port. A name in a pattern stands for itself. */
  ghost predicate Admits(rule: string, user: string, port: nat) {
    exists head, tail :: rule == head + ":" + tail && ':' !in tail && PartsAdmit(head, tail, user, port)
  }

  predicate PartsAdmit(head: string, tail: string, user: string, port: nat) {
    if "~" <= head then NamesUser(head, user) && NamesPort(tail, port)
    else head == user && tail == Numeral(port)
  }

  lemma CutAt(head: string, tail: string)
    requires ':' !in tail
    ensures var rule := head + ":" + tail;
            && rule[..|head|] == head && rule[|head|] == ':' && rule[|head| + 1..] == tail
            && forall i :: |head| < i < |rule| ==> rule[i] != ':'
  {
    var rule := head + ":" + tail;
    forall i | |head| < i < |rule|
      ensures rule[i] != ':'
    {
      assert rule[i] == tail[i - |head| - 1];
    }
  }

  lemma CutIsUnique(head: string, tail: string, head': string, tail': string)
    requires head + ":" + tail == head' + ":" + tail' && ':' !in tail && ':' !in tail'
    ensures head == head' && tail == tail'
  {
    CutAt(head, tail);
    CutAt(head', tail');
  }

  lemma AdmitsParts(head: string, tail: string, user: string, port: nat)
    requires ':' !in tail
    ensures Admits(head + ":" + tail, user, port) <==> PartsAdmit(head, tail, user, port)
  {
    hide PartsAdmit;
    if Admits(head + ":" + tail, user, port) {
      var h, t :| head + ":" + tail == h + ":" + t && ':' !in t && PartsAdmit(h, t, user, port);
      CutIsUnique(head, tail, h, t);
    }
  }

  lemma ListedPort(ports: seq<nat>, port: nat)
    requires ports != []
    ensures var tail := "(" + Join(Numerals(ports), '|') + ")";
            ':' !in tail && (NamesPort(tail, port) <==> port in ports)
  {
    var inner := Join(Numerals(ports), '|');
    var tail := "(" + inner + ")";
    JoinedNumerals(ports);
    assert tail[1..|tail| - 1] == inner;
    assert tail[0] != '[';
    forall i | 0 <= i < |ports|
      ensures '|' !in Numerals(ports)[i]
    {
      DigitsArePlain(Numeral(ports[i]));
    }
    SplitOfJoin(Numerals(ports), '|');
    SplitEachOfWords(Numerals(ports), '|');
    NumeralListed(ports, port);
  }

  lemma NumeralListed(ports: seq<nat>, port: nat)
    ensures Numeral(port) in Numerals(ports) <==> port in ports
  {
    NumeralRoundTrip(port);
    if Numeral(port) in Numerals(ports) {
      var i :| 0 <= i < |ports| && Numerals(ports)[i] == Numeral(port);
      NumeralRoundTrip(ports[i]);
    }
    if port in ports {
      var i :| 0 <= i < |ports| && ports[i] == port;
      assert Numerals(ports)[i] == Numeral(port);
    }
  }

  /** What `create` prints lets in whom the request is for, on the requested ports, and nobody else. */
  lemma PrintedRuleAdmits(username: Option<string>, ports: Option<seq<nat>>, user: string, port: nat)
    requires username.None? ==> ports.None?
    requires username != Some(".+") && !ReadsAsPattern(username, ports)
    requires ports.Some? ==> ports.value != []
    ensures Admits(RuleText(username, ports), user, port) <==>
            (username.None? || user == username.value) && (ports.None? || port in ports.value)
  {
    hide PartsAdmit, NamesPort, Numerals, Join;
    if username.None? {
      assert "~.+:[0-9]+" == "~.+" + ":" + "[0-9]+";
      AdmitsParts("~.+", "[0-9]+", user, port);
      AnyPort("~.+", user, port);
    } else if ports.None? {
      var head := "~" + username.value;
      assert head + ":[0-9]+" == head + ":" + "[0-9]+";
      AdmitsParts(head, "[0-9]+", user, port);
      AnyPort(head, user, port);
      SameName(username.value, user);
    } else if |ports.value| == 1 {
      OnePortAdmits(username.value, ports.value[0], user, port);
    } else {
      var head, tail := "~" + username.value, "(" + Join(Numerals(ports.value), '|') + ")";
      assert RuleText(username, ports) == head + ":" + tail;
      ListedPort(ports.value, port);
      AdmitsParts(head, tail, user, port);
      PatternAdmits(head, tail, user, port);
      SameName(username.value, user);
    }
  }

  lemma PatternAdmits(head: string, tail: string, user: string, port: nat)
    requires "~" <= head
    ensures PartsAdmit(head, tail, user, port) <==> NamesUser(head, user) && NamesPort(tail, port)
  {
  }

  lemma AnyPort(head: string, user: string, port: nat)
    requires "~" <= head
    ensures PartsAdmit(head, "[0-9]+", user, port) <==> NamesUser(head, user)
  {
  }

  lemma SameName(name: string, user: string)
    requires name != ".+"
    ensures NamesUser("~" + name, user) <==> user == name
  {
    assert ("~" + name)[1..] == name && ("~" + user)[1..] == user && "~.+"[1..] == ".+";
  }

  lemma OnePortAdmits(name: string, only: nat, user: string, port: nat)
    requires name == [] || name[0] != '~'
    ensures Admits(name + ":" + Numeral(only), user, port) <==> user == name && port == only
  {
    DigitsArePlain(Numeral(only));
    AdmitsParts(name, Numeral(only), user, port);
    NumeralRoundTrip(only);
    NumeralRoundTrip(port);
  }
}
