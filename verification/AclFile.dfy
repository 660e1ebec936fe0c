// The ACL file as rows: the bottom-up scan of the parser, the rows `create` writes and the rows
// `remove` leaves, and how the scan sees both.
module AclFile {
  import opened Wrappers
  import opened Text
  import opened AclRows
  import opened Ports

  /** An entry as the scan collects it; a field not yet captured is empty. `userRaws` are the
      captured user ids before trimming, which is what the user filter is compared with. */
  datatype Raw = Raw(rule: string, id: string, userId: string, date: string, userRaws: seq<string>)

  datatype Scan = Scan(entries: seq<Raw>, step: nat, hasMap: bool, hasEnd: bool, hasDefault: bool)

  datatype Tag = IdTag(text: string) | UserTag(text: string) | DateTag(text: string)

  /** What the parser takes a row for; the tests are tried in this order. */
  datatype Kind = Empty | MapRow | BraceRow | DefaultRow | Rule(rule: string) | Tagging(tag: Tag) | Other

  const INITIAL: Scan := Scan([], 1, false, false, false)
  const TOTAL_STEP: nat := 4

  function KindOf(row: string): Kind {
    if row == "" then Empty
    else if IsMapRow(row) then MapRow
    else if IsBraceRow(row) then BraceRow
    else if IsDefaultRow(row) then DefaultRow
    else if RuleOf(row).Some? then Rule(RuleOf(row).value)
    else if TagOf(row, ID).Some? then Tagging(IdTag(TagOf(row, ID).value))
    else if TagOf(row, USER_ID).Some? then Tagging(UserTag(TagOf(row, USER_ID).value))
    else if TagOf(row, DATE).Some? then Tagging(DateTag(TagOf(row, DATE).value))
    else Other
  }

  /** Whether the next row is tried as a tag of the entry being collected. */
  predicate Active(st: Scan) {
    st.entries != [] && 1 < st.step <= TOTAL_STEP
  }

  function Tagged(e: Raw, tag: Tag): Raw {
    match tag
    case IdTag(text) => e.(id := Trim(text))
    case UserTag(text) => e.(userId := Trim(text), userRaws := e.userRaws + [text])
    case DateTag(text) => e.(date := Trim(text))
  }

  function Fresh(rule: string): Raw {
    Raw(rule, "", "", "", [])
  }

  function Step(st: Scan, kind: Kind): Scan {
    match kind
    case Empty => st
    case MapRow => st.(hasMap := true)
    case BraceRow => st.(hasEnd := true)
    case DefaultRow => st.(hasDefault := true)
    case Rule(rule) => st.(entries := st.entries + [Fresh(rule)], step := 2)
    case Tagging(tag) =>
      if !Active(st) then st.(step := 1)
      else
        var k := |st.entries| - 1;
        st.(entries := st.entries[k := Tagged(st.entries[k], tag)], step := st.step + 1)
    case Other => st.(step := 1)
  }

  /** The scan of `rows` from the last to the first. */
  function ScanUp(rows: seq<string>, st: Scan): Scan
    decreases |rows|
  {
    if rows == [] then st
    else ScanUp(rows[..|rows| - 1], Step(st, KindOf(rows[|rows| - 1])))
  }

  predicate Complete(e: Raw) {
    e.id != "" && e.userId != "" && e.date != ""
  }

  predicate Accepted(st: Scan) {
    st.hasMap && st.hasEnd && st.hasDefault && forall e :: e in st.entries ==> Complete(e)
  }

  /** The entries of a file, bottom-most first; `None` where the parser reports an invalid file. */
  function Parse(rows: seq<string>): Option<seq<Raw>> {
    var st := ScanUp(rows, INITIAL);
    if Accepted(st) then Some(st.entries) else None
  }

  lemma FixedRowKinds(row: string)
    ensures KindOf(row) == MapRow <==> IsMapRow(row)
    ensures KindOf(row) == BraceRow <==> IsBraceRow(row)
    ensures KindOf(row) == DefaultRow <==> IsDefaultRow(row)
  {
    hide RuleOf, TagOf;
    assert IsMapRow(row) ==> row != [] && row[0] == "map"[0];
    assert IsDefaultRow(row) ==> row != [] && IsSpace(row[0]);
  }

  lemma {:induction false} ScanMarks(rows: seq<string>, st: Scan)
    ensures ScanUp(rows, st).hasMap <==> st.hasMap || exists r :: r in rows && IsMapRow(r)
    ensures ScanUp(rows, st).hasEnd <==> st.hasEnd || exists r :: r in rows && IsBraceRow(r)
    ensures ScanUp(rows, st).hasDefault <==> st.hasDefault || exists r :: r in rows && IsDefaultRow(r)
    decreases |rows|
  {
    hide KindOf, IsMapRow, IsBraceRow, IsDefaultRow;
    if rows != [] {
      var n := |rows| - 1;
      assert rows == rows[..n] + [rows[n]];
      assert forall r :: r in rows <==> r in rows[..n] || r == rows[n];
      FixedRowKinds(rows[n]);
      ScanMarks(rows[..n], Step(st, KindOf(rows[n])));
    }
  }

  /** A file is refused exactly when a map row, a closing brace or a default row is missing, or when an
      entry lacks its id, its user or its date. */
  lemma ParseFailsIff(rows: seq<string>)
    ensures Parse(rows).None? <==>
            || (forall r :: r in rows ==> !IsMapRow(r))
            || (forall r :: r in rows ==> !IsBraceRow(r))
            || (forall r :: r in rows ==> !IsDefaultRow(r))
            || exists e :: e in ScanUp(rows, INITIAL).entries && (e.id == "" || e.userId == "" || e.date == "")
  {
    hide IsMapRow, IsBraceRow, IsDefaultRow, ScanUp;
    ScanMarks(rows, INITIAL);
  }

  lemma {:induction false} ScanConcat(a: seq<string>, b: seq<string>, st: Scan)
    ensures ScanUp(a + b, st) == ScanUp(a, ScanUp(b, st))
    decreases |b|
  {
    hide KindOf;
    if b == [] {
      assert a + b == a;
    } else {
      var n := |b| - 1;
      assert (a + b)[..|a + b| - 1] == a + b[..n];
      ScanConcat(a, b[..n], Step(st, KindOf(b[n])));
    }
  }

  /** The line numbers of the entry with index `k`, in the order the scan meets them. */
  predicate Captures(st: Scan, kind: Kind, k: nat) {
    match kind
    case Rule(_) => |st.entries| == k
    case Tagging(_) => Active(st) && |st.entries| == k + 1
    case _ => false
  }

  function LinesOf(rows: seq<string>, st: Scan, k: nat): (lines: seq<nat>)
    ensures forall l :: l in lines ==> 0 < l <= |rows|
    decreases |rows|
  {
    if rows == [] then []
    else
      var n := |rows|;
      var above := LinesOf(rows[..n - 1], Step(st, KindOf(rows[n - 1])), k);
      if Captures(st, KindOf(rows[n - 1]), k) then [n] + above else above
  }

  lemma {:induction false} LinesConcat(a: seq<string>, b: seq<string>, st: Scan, k: nat)
    ensures forall l :: l in LinesOf(a, ScanUp(b, st), k) ==> l in LinesOf(a + b, st, k)
    ensures forall l :: l in LinesOf(a + b, st, k) && l <= |a| ==> l in LinesOf(a, ScanUp(b, st), k)
    decreases |b|
  {
    hide KindOf;
    if b == [] {
      assert a + b == a;
    } else {
      var n := |b| - 1;
      assert (a + b)[..|a + b| - 1] == a + b[..n];
      LinesConcat(a, b[..n], Step(st, KindOf(b[n])), k);
    }
  }

  /** An entry that another one follows is not touched again. */
  lemma {:induction false} EntriesSettle(rows: seq<string>, st: Scan, k: nat)
    ensures |ScanUp(rows, st).entries| >= |st.entries|
    ensures k + 1 < |st.entries| ==> ScanUp(rows, st).entries[k] == st.entries[k]
    decreases |rows|
  {
    hide KindOf;
    if rows != [] {
      var n := |rows| - 1;
      EntriesSettle(rows[..n], Step(st, KindOf(rows[n])), k);
    }
  }

  function Filled(e: Raw): nat {
    (if e.id != "" then 1 else 0) + (if e.userId != "" then 1 else 0) + (if e.date != "" then 1 else 0)
  }

  /** While an entry is being collected it cannot have more fields than rows were tried. */
  predicate Paced(st: Scan) {
    Active(st) ==> Filled(st.entries[|st.entries| - 1]) <= st.step - 2
  }

  lemma StepIsPaced(st: Scan, kind: Kind)
    requires Paced(st)
    ensures Paced(Step(st, kind))
  {
  }

  // What `create` writes.

  /** The rows above the first row that starts with `}`. */
  function Body(rows: seq<string>): (body: seq<string>)
    ensures body <= rows
    ensures forall i :: 0 <= i < |body| ==> !IsBraceRow(body[i])
    ensures |body| < |rows| ==> IsBraceRow(rows[|body|])
  {
    if rows == [] || IsBraceRow(rows[0]) then [] else [rows[0]] + Body(rows[1..])
  }

  /** One closing row, and only empty rows after it. */
  ghost predicate WellFormed(rows: seq<string>) {
    |Body(rows)| < |rows| && forall i :: |Body(rows)| < i < |rows| ==> rows[i] == ""
  }

  function EntryRows(id: string, userId: string, date: string, rule: string): seq<string> {
    ["", TagRow(ID, id), TagRow(USER_ID, userId), TagRow(DATE, date), RuleRow(rule)]
  }

  function CreatedRows(rows: seq<string>, id: string, userId: string, date: string, rule: string): seq<string> {
    Body(rows) + EntryRows(id, userId, date, rule) + ["}", ""]
  }

  predicate Word(s: string) {
    s != "" && NoSpace(s)
  }

  /** Fields that a printed entry carries intact. */
  predicate Printable(id: string, userId: string, date: string, rule: string) {
    && Word(id) && Word(userId) && Word(date) && Word(rule)
    && 's' !in id && 's' !in userId && 's' !in date
    && id != "200;" && userId != "200;" && date != "200;"
  }

  function Printed(id: string, userId: string, date: string, rule: string): Raw {
    Raw(rule, id, userId, date, [userId])
  }

  lemma KindOfPrintedTag(tag: string, value: string)
    requires tag in [ID, USER_ID, DATE] && Word(value) && 's' !in value && value != "200;"
    ensures KindOf(TagRow(tag, value)) ==
            Tagging(if tag == ID then IdTag(value) else if tag == USER_ID then UserTag(value) else DateTag(value))
    ensures Trim(value) == value
  {
    hide TagRow, TagOf, IsMapRow, IsBraceRow, IsDefaultRow, RuleOf;
    TagRowKind(tag, value);
    TrimOfNoSpace(value);
    TagRoundTrip(tag, value);
    if tag != ID {
      OtherTags(tag, ID, value);
    }
    if tag == DATE {
      OtherTags(tag, USER_ID, value);
    }
  }

  lemma KindOfPrintedRule(rule: string)
    requires Word(rule)
    ensures KindOf(RuleRow(rule)) == Rule(rule)
  {
    RuleRowKind(rule);
    RuleRowIsRule(rule);
  }

  lemma ScanSnoc(rows: seq<string>, row: string, st: Scan)
    ensures ScanUp(rows + [row], st) == ScanUp(rows, Step(st, KindOf(row)))
  {
    hide KindOf;
    assert (rows + [row])[..|rows|] == rows;
  }

  lemma ScanOfFive(r0: string, r1: string, r2: string, r3: string, r4: string, st: Scan)
    ensures ScanUp([r0, r1, r2, r3, r4], st) ==
            Step(Step(Step(Step(Step(st, KindOf(r4)), KindOf(r3)), KindOf(r2)), KindOf(r1)), KindOf(r0))
  {
    hide KindOf;
    var s4 := Step(st, KindOf(r4));
    var s3 := Step(s4, KindOf(r3));
    var s2 := Step(s3, KindOf(r2));
    var s1 := Step(s2, KindOf(r1));
    assert [r0, r1, r2, r3, r4][..4] == [r0, r1, r2, r3] && [r0, r1, r2, r3][..3] == [r0, r1, r2];
    assert [r0, r1, r2][..2] == [r0, r1] && [r0, r1][..1] == [r0] && [r0][..0] == [];
    assert ScanUp([r0, r1, r2, r3], s4) == ScanUp([r0, r1, r2], s3) == ScanUp([r0, r1], s2);
    assert ScanUp([r0, r1], s2) == ScanUp([r0], s1) == ScanUp([], Step(s1, KindOf(r0)));
  }

  lemma StepsOfPrinted(id: string, userId: string, date: string, rule: string, st: Scan)
    requires Trim(id) == id && Trim(userId) == userId && Trim(date) == date
    ensures var s1 := Step(Step(st, Rule(rule)), Tagging(DateTag(date)));
            Step(Step(s1, Tagging(UserTag(userId))), Tagging(IdTag(id))) ==
            st.(entries := st.entries + [Printed(id, userId, date, rule)], step := 5)
  {
    hide Trim;
    var k := |st.entries|;
    var e0 := Fresh(rule);
    var e1 := e0.(date := date);
    var e2 := e1.(userId := userId, userRaws := [userId]);
    var e3 := Printed(id, userId, date, rule);
    var s0 := Step(st, Rule(rule));
    var s1 := Step(s0, Tagging(DateTag(date)));
    assert (st.entries + [e0])[k := e1] == st.entries + [e1];
    assert s1 == st.(entries := st.entries + [e1], step := 3);
    var s2 := Step(s1, Tagging(UserTag(userId)));
    assert e1.userRaws + [userId] == [userId];
    assert (st.entries + [e1])[k := e2] == st.entries + [e2];
    assert s2 == st.(entries := st.entries + [e2], step := 4);
    assert (st.entries + [e2])[k := e3] == st.entries + [e3];
  }

  /** The scan of a freshly printed block adds exactly its entry and leaves tag collection over. */
  lemma ScanOfPrinted(id: string, userId: string, date: string, rule: string, st: Scan)
    requires Printable(id, userId, date, rule)
    ensures ScanUp(EntryRows(id, userId, date, rule), st) ==
            st.(entries := st.entries + [Printed(id, userId, date, rule)], step := 5)
  {
    hide KindOf, TagRow, RuleRow, ScanUp;
    KindOfPrintedRule(rule);
    KindOfPrintedTag(DATE, date);
    KindOfPrintedTag(USER_ID, userId);
    KindOfPrintedTag(ID, id);
    KindOfEmpty();
    ScanOfFive("", TagRow(ID, id), TagRow(USER_ID, userId), TagRow(DATE, date), RuleRow(rule), st);
    StepsOfPrinted(id, userId, date, rule, st);
  }

  lemma KindOfEmpty()
    ensures KindOf("") == Empty
  {
  }

  /** Two scans, the second with one more entry at the front that it no longer collects. */
  ghost predicate AheadBy(e: Raw, st: Scan, st': Scan) {
    && st' == st.(entries := [e] + st.entries, step := st'.step)
    && (if st.entries == [] then !Active(st') else st'.step == st.step)
  }

  lemma AheadStep(e: Raw, st: Scan, st': Scan, kind: Kind)
    requires AheadBy(e, st, st')
    ensures AheadBy(e, Step(st, kind), Step(st', kind))
  {
    if kind.Tagging? && Active(st) {
      var k := |st.entries| - 1;
      var t := Tagged(st.entries[k], kind.tag);
      assert ([e] + st.entries)[k + 1 := t] == [e] + st.entries[k := t];
    } else if kind.Rule? {
      assert [e] + (st.entries + [Fresh(kind.rule)]) == [e] + st.entries + [Fresh(kind.rule)];
    }
  }

  lemma {:induction false} AheadThroughout(rows: seq<string>, e: Raw, st: Scan, st': Scan)
    requires AheadBy(e, st, st')
    ensures AheadBy(e, ScanUp(rows, st), ScanUp(rows, st'))
    decreases |rows|
  {
    hide KindOf;
    if rows != [] {
      var n := |rows| - 1;
      AheadStep(e, st, st', KindOf(rows[n]));
      AheadThroughout(rows[..n], e, Step(st, KindOf(rows[n])), Step(st', KindOf(rows[n])));
    }
  }

  lemma {:induction false} ScanOfBlanks(rows: seq<string>, st: Scan)
    requires forall i :: 0 <= i < |rows| ==> rows[i] == ""
    ensures ScanUp(rows, st) == st
    decreases |rows|
  {
    if rows != [] {
      ScanOfBlanks(rows[..|rows| - 1], st);
    }
  }

  lemma KindOfBrace(row: string)
    requires IsBraceRow(row)
    ensures KindOf(row) == BraceRow
  {
    assert "map"[0] == 'm';
  }

  /** The closing row and what follows it only tell the scan that the file has an end. */
  lemma ScanOfWellFormed(rows: seq<string>)
    requires WellFormed(rows)
    ensures ScanUp(rows, INITIAL) == ScanUp(Body(rows), INITIAL.(hasEnd := true))
  {
    var m := |Body(rows)|;
    assert rows == Body(rows) + ([rows[m]] + rows[m + 1..]);
    ScanConcat(Body(rows), [rows[m]] + rows[m + 1..], INITIAL);
    ScanConcat([rows[m]], rows[m + 1..], INITIAL);
    ScanOfBlanks(rows[m + 1..], INITIAL);
    KindOfBrace(rows[m]);
    ScanSnoc([], rows[m], INITIAL);
    assert [] + [rows[m]] == [rows[m]];
  }

  lemma {:induction false} BodyOf(body: seq<string>, rest: seq<string>)
    requires forall i :: 0 <= i < |body| ==> !IsBraceRow(body[i])
    requires rest != [] && IsBraceRow(rest[0])
    ensures Body(body + rest) == body
  {
    if body == [] {
      assert body + rest == rest;
    } else {
      assert (body + rest)[1..] == body[1..] + rest;
      BodyOf(body[1..], rest);
    }
  }

  lemma CreatedBody(rows: seq<string>, id: string, userId: string, date: string, rule: string)
    requires Printable(id, userId, date, rule)
    ensures var rows' := CreatedRows(rows, id, userId, date, rule);
            WellFormed(rows') && Body(rows') == Body(rows) + EntryRows(id, userId, date, rule)
  {
    var block := EntryRows(id, userId, date, rule);
    forall i | 0 <= i < |block|
      ensures !IsBraceRow(block[i])
    {
      if i > 0 {
        assert block[i][0] == ' ';
      }
    }
    assert IsBraceRow("}");
    BodyOf(Body(rows) + block, ["}", ""]);
    assert CreatedRows(rows, id, userId, date, rule) == Body(rows) + block + ["}", ""];
  }

  /** `create` keeps the file well formed and puts its entry in front of the old entries. */
  lemma CreateRoundTrip(rows: seq<string>, id: string, userId: string, date: string, rule: string)
    requires WellFormed(rows) && Parse(rows).Some? && Printable(id, userId, date, rule)
    ensures var rows' := CreatedRows(rows, id, userId, date, rule);
            && WellFormed(rows')
            && Parse(rows') == Some([Printed(id, userId, date, rule)] + Parse(rows).value)
            && Body(rows') == Body(rows) + EntryRows(id, userId, date, rule)
  {
    hide KindOf, TagRow, RuleRow, IsBraceRow;
    var block := EntryRows(id, userId, date, rule);
    var rows' := CreatedRows(rows, id, userId, date, rule);
    CreatedBody(rows, id, userId, date, rule);
    ScanOfWellFormed(rows);
    ScanOfWellFormed(rows');
    var ended := INITIAL.(hasEnd := true);
    ScanConcat(Body(rows), block, ended);
    ScanOfPrinted(id, userId, date, rule, ended);
    var e := Printed(id, userId, date, rule);
    AheadThroughout(Body(rows), e, ended, ended.(entries := [e], step := 5));
    var st, st' := ScanUp(rows, INITIAL), ScanUp(rows', INITIAL);
    assert [] + [e] == [e];
    assert AheadBy(e, st, st');
    assert Complete(e);
    assert forall x :: x in st'.entries ==> x == e || x in st.entries;
  }

  // What `remove` leaves.

  predicate BlankRow(row: string) {
    Trim(row) == ""
  }

  /** Row number `n` goes: it is a line of the entry, or the blank row above line `first`. */
  predicate Dropped(row: string, n: nat, lines: seq<nat>, first: nat) {
    n in lines || (BlankRow(row) && n + 1 == first)
  }

  function Kept(rows: seq<string>, lines: seq<nat>, first: nat): seq<string>
    decreases |rows|
  {
    if rows == [] then []
    else
      var n := |rows|;
      var above := Kept(rows[..n - 1], lines, first);
      if Dropped(rows[n - 1], n, lines, first) then above else above + [rows[n - 1]]
  }

  function WithoutIndex<T>(s: seq<T>, k: nat): seq<T>
    requires k < |s|
  {
    s[..k] + s[k + 1..]
  }

  /** The scan of the whole file against the scan of the kept rows: equal before the entry with
      index `k` is met, without that entry afterwards. */
  ghost predicate Lacks(st: Scan, st': Scan, k: nat) {
    if |st.entries| <= k then st' == st
    else
      && st' == st.(entries := WithoutIndex(st.entries, k), step := st'.step)
      && (if |st.entries| == k + 1 then !Active(st') else st'.step == st.step)
  }

  lemma WithoutIndexUpdate<T>(s: seq<T>, k: nat, t: T)
    requires k < |s|
    ensures var j := |s| - 1;
            WithoutIndex(s[j := t], k) == if j == k then WithoutIndex(s, k) else WithoutIndex(s, k)[j - 1 := t]
  {
    var j := |s| - 1;
    if j == k {
      assert s[j := t][..k] == s[..k] && s[j := t][k + 1..] == [] == s[k + 1..];
    } else {
      assert WithoutIndex(s[j := t], k) == WithoutIndex(s, k)[j - 1 := t];
    }
  }

  lemma WithoutIndexSnoc<T>(s: seq<T>, k: nat, t: T)
    requires k <= |s|
    ensures WithoutIndex(s + [t], k) == if k == |s| then s else WithoutIndex(s, k) + [t]
  {
    if k < |s| {
      assert WithoutIndex(s + [t], k) == WithoutIndex(s, k) + [t];
    }
  }

  lemma LacksTagging(st: Scan, st': Scan, tag: Tag, k: nat)
    requires Lacks(st, st', k) && Active(st) && |st.entries| > k
    ensures Lacks(Step(st, Tagging(tag)), if |st.entries| == k + 1 then st' else Step(st', Tagging(tag)), k)
  {
    var j := |st.entries| - 1;
    var t := Tagged(st.entries[j], tag);
    WithoutIndexUpdate(st.entries, k, t);
    var next := Step(st, Tagging(tag));
    assert next.entries == st.entries[j := t];
    if j > k {
      assert WithoutIndex(st.entries, k)[j - 1] == st.entries[j];
      assert Active(st');
    }
  }

  lemma LacksRule(st: Scan, st': Scan, rule: string, k: nat)
    requires Lacks(st, st', k)
    requires |st.entries| == k ==> !Active(st)
    ensures Lacks(Step(st, Rule(rule)), if |st.entries| == k then st' else Step(st', Rule(rule)), k)
  {
    if |st.entries| >= k {
      WithoutIndexSnoc(st.entries, k, Fresh(rule));
    }
  }

  lemma LacksStep(st: Scan, st': Scan, kind: Kind, k: nat)
    requires Lacks(st, st', k) && Paced(st)
    requires Captures(st, kind, k) && |st.entries| == k > 0 ==> Complete(st.entries[k - 1])
    ensures Lacks(Step(st, kind), if Captures(st, kind, k) then st' else Step(st', kind), k)
  {
    if kind.Tagging? && Active(st) && |st.entries| > k {
      LacksTagging(st, st', kind.tag, k);
    } else if kind.Rule? {
      LacksRule(st, st', kind.rule, k);
    }
  }

  lemma SomeNonSpaces()
    ensures !IsSpace('m') && !IsSpace('}') && !IsSpace('2') && !IsSpace('d') && !IsSpace('#')
  {
  }

  lemma KindOfBlank(row: string)
    requires BlankRow(row)
    ensures KindOf(row) == if row == "" then Empty else Other
  {
    TrimShape(row);
    if row != "" {
      hide IsSpace, Trim;
      SomeNonSpaces();
      var n := |row|;
      SpaceEndOf(row, "");
      assert row + "" == row && row[n..] == "";
      assert AfterSpace(row) == Some("");
      assert IsSpace(row[0]) && "map"[0] == 'm';
      assert !IsMapRow(row) && !IsBraceRow(row);
      assert AfterWord(Some(""), "default") == None && AfterWord(Some(""), "###") == None;
      assert !IsDefaultRow(row);
      if n >= 7 {
        assert row[n - 4..][0] == row[n - 4] && IsSpace(row[n - 4]);
      }
      assert RuleOf(row).None?;
    }
  }

  /** While entry `k` is the last one met, a blank row above one of its lines may go. */
  lemma LacksBlank(st: Scan, st': Scan, row: string, k: nat)
    requires Lacks(st, st', k) && |st.entries| == k + 1 && BlankRow(row)
    ensures Lacks(Step(st, KindOf(row)), st', k)
  {
    hide KindOf;
    KindOfBlank(row);
  }

  /** Dropping the lines of one entry, and the blank row above one of them, only takes that entry
      out of the scan: the step counter of the other entries is not affected. */
  lemma {:induction false} ScanOfKept(rows: seq<string>, st: Scan, st': Scan, k: nat, lines: seq<nat>, first: nat)
    requires Lacks(st, st', k) && Paced(st)
    requires forall e :: e in ScanUp(rows, st).entries ==> Complete(e)
    requires forall n :: 0 < n <= |rows| ==> (n in lines <==> n in LinesOf(rows, st, k))
    requires first in lines && (first == |rows| + 1 ==> |st.entries| == k + 1)
    ensures Lacks(ScanUp(rows, st), ScanUp(Kept(rows, lines, first), st'), k)
    decreases |rows|
  {
    hide KindOf, Lacks, Paced, Complete, BlankRow;
    if rows != [] {
      var n := |rows|;
      var row, above := rows[n - 1], rows[..n - 1];
      var kind := KindOf(row);
      var next := Step(st, kind);
      StepIsPaced(st, kind);
      assert n in LinesOf(rows, st, k) <==> Captures(st, kind, k);
      if Captures(st, kind, k) && |st.entries| == k > 0 {
        EntriesSettle(above, next, k - 1);
        assert ScanUp(rows, st).entries[k - 1] == st.entries[k - 1];
        assert st.entries[k - 1] in ScanUp(rows, st).entries;
      }
      LacksStep(st, st', kind, k);
      if Captures(st, kind, k) {
        ScanOfKept(above, next, st', k, lines, first);
      } else if Dropped(row, n, lines, first) {
        LacksBlank(st, st', row, k);
        ScanOfKept(above, next, st', k, lines, first);
      } else {
        ScanOfKept(above, next, Step(st', kind), k, lines, first);
        ScanSnoc(Kept(above, lines, first), row, st');
      }
    }
  }

  /** The first line number in the order of `sort()`, which is what `lines.at(0)` is. */
  function TextFirst(lines: seq<nat>): (first: nat)
    requires lines != []
    ensures first in lines && forall l :: l in lines ==> TextAtMost(first, l)
  {
    if |lines| == 1 then TextAtMostReflexive(lines[0]); lines[0]
    else
      var rest := TextFirst(lines[1..]);
      TextAtMostTotal(lines[0], rest);
      TextAtMostReflexive(lines[0]);
      if TextAtMost(lines[0], rest) then
        assert forall l :: l in lines[1..] ==> TextAtMost(lines[0], l) by {
          forall l | l in lines[1..]
            ensures TextAtMost(lines[0], l)
          {
            TextLessOrder(Numeral(lines[0]), Numeral(rest), Numeral(l));
          }
        }
        lines[0]
      else rest
  }

  lemma TextAtMostReflexive(a: nat)
    ensures TextAtMost(a, a)
  {
    TextLessOrder(Numeral(a), Numeral(a), Numeral(a));
  }

  lemma TextAtMostTotal(a: nat, b: nat)
    ensures TextAtMost(a, b) || TextAtMost(b, a)
  {
    TextLessOrder(Numeral(a), Numeral(b), Numeral(a));
  }

  /** The position of the entry `remove` finds: the first with this id. */
  function IndexOfId(entries: seq<Raw>, id: string): (k: Option<nat>)
    ensures k.Some? ==> k.value < |entries| && entries[k.value].id == id
    ensures k.Some? ==> forall j :: 0 <= j < k.value ==> entries[j].id != id
    ensures k.None? ==> forall e :: e in entries ==> e.id != id
  {
    if entries == [] then None
    else if entries[0].id == id then Some(0)
    else
      var k := IndexOfId(entries[1..], id);
      if k.None? then None else Some(k.value + 1)
  }

  lemma {:induction false} EntryHasLines(rows: seq<string>, st: Scan, k: nat)
    requires |st.entries| <= k < |ScanUp(rows, st).entries|
    ensures LinesOf(rows, st, k) != []
    decreases |rows|
  {
    hide KindOf;
    if rows != [] && !Captures(st, KindOf(rows[|rows| - 1]), k) {
      EntryHasLines(rows[..|rows| - 1], Step(st, KindOf(rows[|rows| - 1])), k);
    }
  }

  /** The rows left after removing the entry with index `k`. */
  function RemovedRows(rows: seq<string>, k: nat): seq<string>
    requires k < |ScanUp(rows, INITIAL).entries|
  {
    EntryHasLines(rows, INITIAL, k);
    var lines := LinesOf(rows, INITIAL, k);
    Kept(rows, lines, TextFirst(lines))
  }

  lemma {:induction false} KeptConcat(a: seq<string>, b: seq<string>, lines: seq<nat>, first: nat)
    ensures Kept(a, lines, first) <= Kept(a + b, lines, first)
    ensures forall i :: |Kept(a, lines, first)| <= i < |Kept(a + b, lines, first)| ==> Kept(a + b, lines, first)[i] in b
    decreases |b|
  {
    if b == [] {
      assert a + b == a;
    } else {
      var n := |b| - 1;
      assert (a + b)[..|a + b| - 1] == a + b[..n];
      KeptConcat(a, b[..n], lines, first);
    }
  }

  lemma {:induction false} KeptMembers(rows: seq<string>, lines: seq<nat>, first: nat)
    ensures forall row :: row in Kept(rows, lines, first) ==> row in rows
    decreases |rows|
  {
    if rows != [] {
      KeptMembers(rows[..|rows| - 1], lines, first);
    }
  }

  /** A structural row is never a line of an entry. */
  lemma {:induction false} LinesAreTagsOrRules(rows: seq<string>, st: Scan, k: nat)
    ensures forall l :: l in LinesOf(rows, st, k) ==> KindOf(rows[l - 1]).Rule? || KindOf(rows[l - 1]).Tagging?
    decreases |rows|
  {
    hide KindOf;
    if rows != [] {
      var n := |rows|;
      LinesAreTagsOrRules(rows[..n - 1], Step(st, KindOf(rows[n - 1])), k);
    }
  }

  lemma KeptSnoc(rows: seq<string>, row: string, lines: seq<nat>, first: nat)
    ensures Kept(rows + [row], lines, first) ==
            Kept(rows, lines, first) + (if Dropped(row, |rows| + 1, lines, first) then [] else [row])
  {
    assert (rows + [row])[..|rows|] == rows;
  }

  /** The closing row is neither a line of an entry nor blank. */
  lemma BraceStays(rows: seq<string>, k: nat, lines: seq<nat>, first: nat)
    requires |Body(rows)| < |rows|
    requires lines == LinesOf(rows, INITIAL, k)
    ensures !Dropped(rows[|Body(rows)|], |Body(rows)| + 1, lines, first)
  {
    hide KindOf, LinesOf;
    var brace := rows[|Body(rows)|];
    LinesAreTagsOrRules(rows, INITIAL, k);
    KindOfBrace(brace);
    TrimShape(brace);
    assert !IsSpace(brace[0]);
  }

  lemma SplitAt<T>(s: seq<T>, m: nat)
    requires m < |s|
    ensures s == s[..m] + [s[m]] + s[m + 1..]
  {
  }

  lemma AppendOneByOne<T>(s: seq<T>, a: T, b: T, c: T, d: T, e: T)
    ensures s + [a, b, c, d, e] == s + [a] + [b] + [c] + [d] + [e]
  {
  }

  lemma KeptIsWellFormed(rows: seq<string>, lines: seq<nat>, first: nat)
    requires WellFormed(rows)
    requires !Dropped(rows[|Body(rows)|], |Body(rows)| + 1, lines, first)
    ensures WellFormed(Kept(rows, lines, first))
  {
    hide Dropped, IsBraceRow;
    var body := Body(rows);
    var m := |body|;
    var brace, tail := rows[m], rows[m + 1..];
    var top, kept := Kept(body, lines, first), Kept(rows, lines, first);
    KeptSnoc(body, brace, lines, first);
    SplitAt(rows, m);
    assert rows[..m] == body;
    KeptConcat(body + [brace], tail, lines, first);
    assert top + [brace] <= kept;
    var rest := kept[|top|..];
    assert kept == top + rest && rest[0] == brace;
    KeptMembers(body, lines, first);
    forall i | 0 <= i < |top|
      ensures !IsBraceRow(top[i])
    {
      assert top[i] in body;
    }
    BodyOf(top, rest);
    forall i | |top| < i < |kept|
      ensures kept[i] == ""
    {
      assert kept[i] in tail;
    }
  }

  lemma RemoveKeepsWellFormed(rows: seq<string>, k: nat)
    requires WellFormed(rows) && k < |ScanUp(rows, INITIAL).entries|
    ensures WellFormed(RemovedRows(rows, k))
  {
    hide WellFormed, Dropped, Kept;
    EntryHasLines(rows, INITIAL, k);
    var lines := LinesOf(rows, INITIAL, k);
    WellFormedHasEnd(rows);
    BraceStays(rows, k, lines, TextFirst(lines));
    KeptIsWellFormed(rows, lines, TextFirst(lines));
  }

  lemma WellFormedHasEnd(rows: seq<string>)
    requires WellFormed(rows)
    ensures |Body(rows)| < |rows|
  {
  }

  /** `remove` takes exactly one entry out of the parse and keeps the file well formed. */
  lemma RemoveExact(rows: seq<string>, k: nat)
    requires WellFormed(rows) && Parse(rows).Some? && k < |Parse(rows).value|
    ensures WellFormed(RemovedRows(rows, k))
    ensures Parse(RemovedRows(rows, k)) == Some(WithoutIndex(Parse(rows).value, k))
  {
    RemoveKeepsWellFormed(rows, k);
    EntryHasLines(rows, INITIAL, k);
    var lines := LinesOf(rows, INITIAL, k);
    ScanOfKept(rows, INITIAL, INITIAL, k, lines, TextFirst(lines));
    var st := ScanUp(rows, INITIAL);
    forall e | e in WithoutIndex(st.entries, k)
      ensures e in st.entries
    {
    }
  }

  function NonBlank(rows: seq<string>): seq<string>
    decreases |rows|
  {
    if rows == [] then [] else
    var above := NonBlank(rows[..|rows| - 1]);
    var last := rows[|rows| - 1];
    if BlankRow(last) then above else above + [last]
  }

  /** The rows whose numbers are not in `lines`. */
  function OtherRows(rows: seq<string>, lines: seq<nat>): seq<string>
    decreases |rows|
  {
    if rows == [] then [] else
    var above := OtherRows(rows[..|rows| - 1], lines);
    if |rows| in lines then above else above + [rows[|rows| - 1]]
  }

  lemma NonBlankSnoc(rows: seq<string>, row: string)
    ensures NonBlank(rows + [row]) == NonBlank(rows) + (if BlankRow(row) then [] else [row])
  {
    assert (rows + [row])[..|rows|] == rows;
  }

  /** Apart from the lines of the entry, every non-blank row stays, in order. */
  lemma {:induction false} KeptNonBlank(rows: seq<string>, lines: seq<nat>, first: nat)
    ensures NonBlank(Kept(rows, lines, first)) == NonBlank(OtherRows(rows, lines))
    decreases |rows|
  {
    if rows != [] {
      var n := |rows|;
      KeptNonBlank(rows[..n - 1], lines, first);
      NonBlankSnoc(Kept(rows[..n - 1], lines, first), rows[n - 1]);
      NonBlankSnoc(OtherRows(rows[..n - 1], lines), rows[n - 1]);
    }
  }

  lemma {:induction false} NoOtherRows(rows: seq<string>, lines: seq<nat>)
    requires forall l :: l in lines ==> l > |rows|
    ensures OtherRows(rows, lines) == rows
    decreases |rows|
  {
    if rows != [] {
      NoOtherRows(rows[..|rows| - 1], lines);
    }
  }

  lemma {:induction false} FinishedEntryHasNoLines(rows: seq<string>, st: Scan, k: nat)
    requires |st.entries| > k && (|st.entries| == k + 1 ==> !Active(st))
    ensures LinesOf(rows, st, k) == []
    decreases |rows|
  {
    hide KindOf;
    if rows != [] {
      FinishedEntryHasNoLines(rows[..|rows| - 1], Step(st, KindOf(rows[|rows| - 1])), k);
    }
  }

  lemma LinesSnoc(rows: seq<string>, row: string, st: Scan, k: nat)
    ensures LinesOf(rows + [row], st, k) ==
            (if Captures(st, KindOf(row), k) then [|rows| + 1] else []) + LinesOf(rows, Step(st, KindOf(row)), k)
  {
    hide KindOf;
    assert (rows + [row])[..|rows|] == rows;
  }

  /** A rule row starts entry 0; the next three tag rows are its lines. */
  lemma FirstEntryLine(rows: seq<string>, row: string, st: Scan)
    requires if st.entries == [] then KindOf(row).Rule? else |st.entries| == 1 && Active(st) && KindOf(row).Tagging?
    ensures LinesOf(rows + [row], st, 0) == [|rows| + 1] + LinesOf(rows, Step(st, KindOf(row)), 0)
    ensures var next := Step(st, KindOf(row));
            |next.entries| == 1 && next.step == if st.entries == [] then 2 else st.step + 1
  {
    LinesSnoc(rows, row, st, 0);
  }

  lemma LinesOfFive(body: seq<string>, r1: string, r2: string, r3: string, r4: string, st: Scan)
    requires KindOf(r4).Rule? && KindOf(r3).Tagging? && KindOf(r2).Tagging? && KindOf(r1).Tagging?
    requires st.entries == []
    ensures LinesOf(body + [""] + [r1] + [r2] + [r3] + [r4], st, 0)
            == [|body| + 5, |body| + 4, |body| + 3, |body| + 2]
  {
    hide KindOf, LinesOf, Step;
    var b0 := body + [""];
    var b1 := b0 + [r1];
    var b2 := b1 + [r2];
    var b3 := b2 + [r3];
    FirstEntryLine(b3, r4, st);
    var s4 := Step(st, KindOf(r4));
    FirstEntryLine(b2, r3, s4);
    var s3 := Step(s4, KindOf(r3));
    FirstEntryLine(b1, r2, s3);
    var s2 := Step(s3, KindOf(r2));
    FirstEntryLine(b0, r1, s2);
    var s1 := Step(s2, KindOf(r1));
    BlankIsNoLine(body, s1, 0);
    FinishedEntryHasNoLines(body, s1, 0);
  }

  lemma BlankIsNoLine(rows: seq<string>, st: Scan, k: nat)
    ensures LinesOf(rows + [""], st, k) == LinesOf(rows, st, k)
  {
    KindOfEmpty();
    LinesSnoc(rows, "", st, k);
  }

  lemma LinesOfPrinted(body: seq<string>, id: string, userId: string, date: string, rule: string, st: Scan)
    requires Printable(id, userId, date, rule) && st.entries == []
    ensures LinesOf(body + EntryRows(id, userId, date, rule), st, 0) == [|body| + 5, |body| + 4, |body| + 3, |body| + 2]
  {
    hide KindOf, TagRow, RuleRow, LinesOf;
    KindOfPrintedRule(rule);
    KindOfPrintedTag(DATE, date);
    KindOfPrintedTag(USER_ID, userId);
    KindOfPrintedTag(ID, id);
    var r1, r2, r3, r4 := TagRow(ID, id), TagRow(USER_ID, userId), TagRow(DATE, date), RuleRow(rule);
    LinesOfFive(body, r1, r2, r3, r4, st);
    AppendOneByOne(body, "", r1, r2, r3, r4);
  }

  /** `remove` after `create` restores the file up to blank rows: the rows above the old closing
      row, then a bare `}`. */
  lemma RemoveUndoesCreate(rows: seq<string>, id: string, userId: string, date: string, rule: string)
    requires WellFormed(rows) && Parse(rows).Some? && Printable(id, userId, date, rule)
    ensures var rows' := CreatedRows(rows, id, userId, date, rule);
            && Parse(rows').Some? && IndexOfId(Parse(rows').value, id) == Some(0)
            && NonBlank(RemovedRows(rows', 0)) == NonBlank(Body(rows)) + ["}"]
            && (NonBlank(RemovedRows(rows', 0)) == NonBlank(rows) <==> rows[|Body(rows)|] == "}")
  {
    hide KindOf, TagRow, RuleRow, LinesOf, ScanUp, Kept, OtherRows, NonBlank, BlankRow;
    CreateRoundTrip(rows, id, userId, date, rule);
    var rows' := CreatedRows(rows, id, userId, date, rule);
    var body := Body(rows);
    var block := EntryRows(id, userId, date, rule);
    var lines := LinesOf(rows', INITIAL, 0);
    EntryHasLines(rows', INITIAL, 0);
    PrintedFileLines(body, id, userId, date, rule);
    KeptNonBlank(rows', lines, TextFirst(lines));
    PrintedFileOtherRows(body, block, lines);
    NonBlankOfWellFormed(rows);
    var m := |NonBlank(body)|;
    assert (NonBlank(body) + ["}"])[m] == "}";
    assert (NonBlank(body) + [rows[|body|]])[m] == rows[|body|];
  }

  lemma PrintedFileLines(body: seq<string>, id: string, userId: string, date: string, rule: string)
    requires Printable(id, userId, date, rule)
    ensures LinesOf(body + EntryRows(id, userId, date, rule) + ["}", ""], INITIAL, 0)
            == [|body| + 5, |body| + 4, |body| + 3, |body| + 2]
  {
    hide KindOf, TagRow, RuleRow, LinesOf, EntryRows;
    var file := body + EntryRows(id, userId, date, rule);
    KindOfEmpty();
    assert IsBraceRow("}");
    KindOfBrace("}");
    LinesSnoc(file + ["}"], "", INITIAL, 0);
    LinesSnoc(file, "}", INITIAL, 0);
    LinesOfPrinted(body, id, userId, date, rule, INITIAL.(hasEnd := true));
    assert file + ["}", ""] == file + ["}"] + [""];
    assert LinesOf(file + ["}"] + [""], INITIAL, 0) == [|body| + 5, |body| + 4, |body| + 3, |body| + 2];
  }

  lemma OtherRowsSnoc(rows: seq<string>, row: string, lines: seq<nat>)
    ensures OtherRows(rows + [row], lines) == OtherRows(rows, lines) + (if |rows| + 1 in lines then [] else [row])
  {
    assert (rows + [row])[..|rows|] == rows;
  }

  lemma PrintedFileOtherRows(body: seq<string>, block: seq<string>, lines: seq<nat>)
    requires |block| == 5 && block[0] == ""
    requires lines == [|body| + 5, |body| + 4, |body| + 3, |body| + 2]
    ensures NonBlank(OtherRows(body + block + ["}", ""], lines)) == NonBlank(body) + ["}"]
  {
    var b0 := body + [""];
    var b1 := b0 + [block[1]];
    var b2 := b1 + [block[2]];
    var b3 := b2 + [block[3]];
    var b4 := b3 + [block[4]];
    assert body + block + ["}", ""] == b4 + ["}"] + [""];
    OtherRowsSnoc(b4 + ["}"], "", lines);
    OtherRowsSnoc(b4, "}", lines);
    OtherRowsSnoc(b3, block[4], lines);
    OtherRowsSnoc(b2, block[3], lines);
    OtherRowsSnoc(b1, block[2], lines);
    OtherRowsSnoc(b0, block[1], lines);
    NoOtherRows(b0, lines);
    NonBlankSnoc(body, "");
    NonBlankSnoc(b0, "}");
    NonBlankSnoc(b0 + ["}"], "");
    TrimOfNoSpace("");
    TrimOfNoSpace("}");
  }

  lemma {:induction false} NonBlankOfBlanks(rows: seq<string>, blanks: seq<string>)
    requires forall i :: 0 <= i < |blanks| ==> blanks[i] == ""
    ensures NonBlank(rows + blanks) == NonBlank(rows)
    decreases |blanks|
  {
    if blanks == [] {
      assert rows + blanks == rows;
    } else {
      var n := |blanks| - 1;
      NonBlankOfBlanks(rows, blanks[..n]);
      assert rows + blanks == rows + blanks[..n] + [""];
      NonBlankSnoc(rows + blanks[..n], "");
      TrimOfNoSpace("");
    }
  }

  lemma NonBlankOfWellFormed(rows: seq<string>)
    requires WellFormed(rows)
    ensures NonBlank(rows) == NonBlank(Body(rows)) + [rows[|Body(rows)|]]
  {
    var m := |Body(rows)|;
    var brace := rows[m];
    assert rows == Body(rows) + [brace] + rows[m + 1..];
    NonBlankOfBlanks(Body(rows) + [brace], rows[m + 1..]);
    NonBlankSnoc(Body(rows), brace);
    TrimShape(brace);
    assert !IsSpace(brace[0]);
  }
}
