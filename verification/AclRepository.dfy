// The repository over the text of the ACL file, proved against the row functions, and the
// invariant of every run of `create` and `remove`.
module AclRepository {
  import opened Wrappers
  import opened Text
  import opened Ports
  import opened AclRows
  import opened AclFile
  import opened AclEntries
  import opened AclRules

  const NL := '\n'

  function RowsOf(text: string): (rows: seq<string>)
    ensures rows != []
  {
    Split(text, NL)
  }

  function CreateText(text: string, id: string, userId: string, date: string, rule: string): string {
    Join(Body(RowsOf(text)) + [Join(EntryRows(id, userId, date, rule), NL)] + ["}\n"], NL)
  }

  lemma WordHasNoNewline(s: string)
    requires NoSpace(s)
    ensures NL !in s
  {
  }

  /** The text that `create` writes has the rows of `CreatedRows`. */
  lemma CreateTextRows(text: string, id: string, userId: string, date: string, rule: string)
    requires Printable(id, userId, date, rule)
    ensures RowsOf(CreateText(text, id, userId, date, rule)) == CreatedRows(RowsOf(text), id, userId, date, rule)
  {
    hide EntryRows, TagRow, RuleRow;
    var body, block := Body(RowsOf(text)), EntryRows(id, userId, date, rule);
    var blockText := Join(block, NL);
    PartsHaveNoSeparator(text, NL);
    SplitEachOfWords(body, NL);
    EntryRowsHaveNoNewline(id, userId, date, rule);
    SplitOfJoin(block, NL);
    SplitEachOfWords(block, NL);
    ClosingRows();
    SplitOfJoin(body + [blockText] + ["}\n"], NL);
    SplitEachConcat(body + [blockText], ["}\n"], NL);
    SplitEachConcat(body, [blockText], NL);
    assert SplitEach([blockText], NL) == block + [];
    assert SplitEach(["}\n"], NL) == ["}", ""] + [];
  }

  lemma EntryRowsHaveNoNewline(id: string, userId: string, date: string, rule: string)
    requires Printable(id, userId, date, rule)
    ensures forall i :: 0 <= i < 5 ==> NL !in EntryRows(id, userId, date, rule)[i]
    ensures |EntryRows(id, userId, date, rule)| == 5
  {
    WordHasNoNewline(id);
    WordHasNoNewline(userId);
    WordHasNoNewline(date);
    WordHasNoNewline(rule);
  }

  lemma ClosingRows()
    ensures Split("}\n", NL) == ["}", ""]
  {
    SplitConcat("}", "", NL);
    SplitOfWord("}", NL);
    assert "}" + [NL] + "" == "}\n";
    assert ["}"] + [""] == ["}", ""];
  }

  lemma JoinedRows(rows: seq<string>)
    requires rows != [] && forall i :: 0 <= i < |rows| ==> NL !in rows[i]
    ensures RowsOf(Join(rows, NL)) == rows
  {
    SplitOfJoin(rows, NL);
    SplitEachOfWords(rows, NL);
  }

  function RemoveText(text: string, id: string): string {
    var entries := Parse(RowsOf(text));
    if entries.None? || IndexOfId(entries.value, id).None? then text
    else Join(RemovedRows(RowsOf(text), IndexOfId(entries.value, id).value), NL)
  }

  lemma RemoveTextRows(text: string, k: nat)
    requires WellFormed(RowsOf(text)) && k < |ScanUp(RowsOf(text), INITIAL).entries|
    ensures RowsOf(Join(RemovedRows(RowsOf(text), k), NL)) == RemovedRows(RowsOf(text), k)
  {
    var rows := RowsOf(text);
    PartsHaveNoSeparator(text, NL);
    RemoveKeepsWellFormed(rows, k);
    EntryHasLines(rows, INITIAL, k);
    var lines := LinesOf(rows, INITIAL, k);
    KeptMembers(rows, lines, TextFirst(lines));
    var kept := RemovedRows(rows, k);
    forall i | 0 <= i < |kept|
      ensures NL !in kept[i]
    {
      assert kept[i] in rows;
    }
    JoinedRows(kept);
  }

  /** What `create` answers on a file it can read and write. */
  function CreateResult(text: string, req: Request, id: string, date: nat): Result<Entry, Error> {
    var entries := Parse(RowsOf(text));
    if entries.None? then Failure(InvalidAclFile)
    else
      var list := Listed(Visible(entries.value, UserIdOf(req)));
      if list.None? then Failure(RepositoryError)
      else if Conflicts(list.value, req.ports) then Failure(Exist)
      else if Form(req).None? then Failure(FillData)
      else Success(Entry(id, UserIdOf(req), Form(req).value, Some(date)))
  }

  function FileUserId(req: Request): string {
    if req.user.Some? then req.user.value.id else ALL_USERS
  }

  function CreatedText(text: string, req: Request, id: string, date: nat): string
    requires Form(req).Some?
  {
    CreateText(text, id, FileUserId(req), Numeral(date), RuleText(UsernameOf(req), Form(req).value))
  }

  // Runs.

  datatype Op = Create(req: Request, id: string, date: nat) | Remove(id: string)

  function After(text: string, op: Op): string {
    match op
    case Create(req, id, date) =>
      if CreateResult(text, req, id, date).Success? then CreatedText(text, req, id, date) else text
    case Remove(id) => RemoveText(text, id)
  }

  function AfterAll(text: string, ops: seq<Op>): string {
    if ops == [] then text else After(AfterAll(text, ops[..|ops| - 1]), ops[|ops| - 1])
  }

  predicate Identifier(s: string) {
    Word(s) && 's' !in s && s != "200;"
  }

  /** Ids as the identifier service makes them, and user names of one word; a request for one port is
      not made for a name that starts with `~`, which the API does not admit. */
  predicate Admissible(op: Op) {
    op.Create? ==>
      && Identifier(op.id)
      && (op.req.user.Some? ==>
            && Identifier(op.req.user.value.id) && op.req.user.value.id != ALL_USERS
            && Word(op.req.user.value.username))
      && (Form(op.req).Some? ==> !ReadsAsPattern(UsernameOf(op.req), Form(op.req).value))
  }

  /** The invariant of a managed file. */
  ghost predicate Managed(text: string) {
    && WellFormed(RowsOf(text))
    && Parse(RowsOf(text)).Some?
    && Clean(Parse(RowsOf(text)).value)
    && NoConflict(Decoded(Parse(RowsOf(text)).value))
  }

  function EntriesOf(text: string): seq<Entry>
    requires Parse(RowsOf(text)).Some? && Clean(Parse(RowsOf(text)).value)
  {
    Decoded(Parse(RowsOf(text)).value)
  }

  lemma DatesArePrintable(date: nat)
    ensures Word(Numeral(date)) && 's' !in Numeral(date) && Numeral(date) != "200;"
  {
    DigitsArePlain(Numeral(date));
    assert !IsDigit("200;"[3]);
  }

  lemma RequestIsPrintable(req: Request, id: string, date: nat)
    requires Admissible(Create(req, id, date)) && Form(req).Some?
    ensures Printable(id, FileUserId(req), Numeral(date), RuleText(UsernameOf(req), Form(req).value))
  {
    DatesArePrintable(date);
    RuleTextIsWord(UsernameOf(req), Form(req).value);
  }

  /** An accepted `create` puts exactly its entry, intact, in front of the entries of the file. */
  lemma CreateKeepsManaged(text: string, req: Request, id: string, date: nat)
    requires Managed(text) && Admissible(Create(req, id, date))
    requires CreateResult(text, req, id, date).Success?
    ensures Managed(CreatedText(text, req, id, date))
    ensures EntriesOf(CreatedText(text, req, id, date)) == [CreateResult(text, req, id, date).value] + EntriesOf(text)
  {
    hide Accepts, NoConflict, Visible, Listed, Printed, RuleText, Decode;
    var rows, rule, userId := RowsOf(text), RuleText(UsernameOf(req), Form(req).value), FileUserId(req);
    var raws := Parse(rows).value;
    RequestIsPrintable(req, id, date);
    CreateRoundTrip(rows, id, userId, Numeral(date), rule);
    CreateTextRows(text, id, userId, Numeral(date), rule);
    var raw := PrintedEntry(id, userId, UsernameOf(req), Form(req).value, date);
    var entry := CreateResult(text, req, id, date).value;
    EntryRoundTrip(id, userId, UsernameOf(req), Form(req).value, date);
    PrintedIsClean(id, userId, Numeral(date), rule);
    SuccessIsAccepted(text, req, id, date);
    AcceptedKeepsNoConflict(raws, req, entry);
    assert Decoded([raw] + raws) == [entry] + Decoded(raws);
  }

  /** What `create` answers on a managed file: the request is refused as existing exactly when some
      entry of the file clashes with it, and otherwise accepted exactly when it is for all ports, or for
      a user and some ports. */
  lemma CreateAnswers(text: string, req: Request, id: string, date: nat)
    requires Managed(text) && Admissible(Create(req, id, date))
    ensures var clash := exists e :: e in EntriesOf(text) && Clashes(e, req);
            var printable := !req.custom || (req.user.Some? && req.ports != []);
            var r := CreateResult(text, req, id, date);
            && (r == Failure(Exist) <==> clash)
            && (r == Failure(FillData) <==> !clash && !printable)
            && (r == Success(Requested(req, id, date)) <==> !clash && printable)
  {
    hide Listed, Visible, Decode, Conflicts, Clashes, KindOf;
    ConflictsMeans(Parse(RowsOf(text)).value, req);
  }

  /** A printable request that is compatible with every entry of the file is accepted, unless it is a
      custom one and an entry for all ports already covers it. */
  lemma CompatibleIsAccepted(text: string, req: Request, id: string, date: nat)
    requires Managed(text) && Admissible(Create(req, id, date))
    requires if req.custom then req.user.Some? && req.ports != [] else req.ports == []
    ensures CreateResult(text, req, id, date) == Success(Requested(req, id, date)) <==>
            && (forall e :: e in EntriesOf(text) ==> Compatible(Requested(req, id, date), e))
            && (req.custom ==> forall e :: e in EntriesOf(text) && e.ports.None? ==> e.user.Some? && e.user != UserIdOf(req))
  {
    hide CreateResult, Clashes, Compatible;
    CreateAnswers(text, req, id, date);
    EveryonesHaveNoPorts(text);
    ClashesOrCompatible(EntriesOf(text), req, id, date);
  }

  lemma EveryonesHaveNoPorts(text: string)
    requires Managed(text)
    ensures forall e :: e in EntriesOf(text) && e.user.None? ==> e.ports.None?
  {
    hide Decode;
    var raws := Parse(RowsOf(text)).value;
    forall e | e in EntriesOf(text) && e.user.None?
      ensures e.ports.None?
    {
      var i :| 0 <= i < |raws| && Decoded(raws)[i] == e;
      assert raws[i] in raws && CleanRaw(raws[i]);
      DecodedUser(raws[i]);
    }
  }

  lemma PrintedIsClean(id: string, userId: string, date: string, rule: string)
    ensures Printed(id, userId, date, rule).userRaws == [Printed(id, userId, date, rule).userId]
  {
  }

  lemma SuccessIsAccepted(text: string, req: Request, id: string, date: nat)
    requires Admissible(Create(req, id, date)) && CreateResult(text, req, id, date).Success?
    ensures Accepts(Parse(RowsOf(text)).value, req, CreateResult(text, req, id, date).value)
  {
  }

  /** `remove` takes out the entry with the id, if there is one, and nothing else. */
  lemma RemoveKeepsManaged(text: string, id: string)
    requires Managed(text)
    ensures Managed(RemoveText(text, id))
    ensures var k := IndexOfId(Parse(RowsOf(text)).value, id);
            EntriesOf(RemoveText(text, id)) ==
            if k.None? then EntriesOf(text) else WithoutIndex(EntriesOf(text), k.value)
  {
    hide NoConflict, Decode;
    var rows := RowsOf(text);
    var raws := Parse(rows).value;
    var k := IndexOfId(raws, id);
    if k.Some? {
      RemoveExact(rows, k.value);
      RemoveTextRows(text, k.value);
      RemovalKeepsNoConflict(Decoded(raws), k.value);
      var rest := WithoutIndex(raws, k.value);
      forall r | r in rest
        ensures r in raws
      {
      }
      assert Decoded(rest) == WithoutIndex(Decoded(raws), k.value);
    }
  }

  /** Every run of `create` and `remove` on a managed file leaves a managed file. */
  lemma {:induction false} RunKeepsManaged(text: string, ops: seq<Op>)
    requires Managed(text) && forall i :: 0 <= i < |ops| ==> Admissible(ops[i])
    ensures Managed(AfterAll(text, ops))
    decreases |ops|
  {
    hide Managed, CreateResult;
    if ops != [] {
      var n := |ops| - 1;
      RunKeepsManaged(text, ops[..n]);
      var mid := AfterAll(text, ops[..n]);
      match ops[n]
      case Create(req, id, date) =>
        if CreateResult(mid, req, id, date).Success? {
          CreateKeepsManaged(mid, req, id, date);
        }
      case Remove(id) => RemoveKeepsManaged(mid, id);
    }
  }

  const MAP_ROW := "map" + (" " + MAP_KEY + (" " + MAP_RESULT + (" " + "{" + "")))
  const DEFAULT_ROW := "    " + "default" + (" " + "403;" + "")
  const EMPTY_MAP := ["", MAP_ROW, DEFAULT_ROW, "}", ""]

  lemma ThreeWords(first: string, second: string, third: string, fourth: string)
    requires second != [] && third != [] && fourth != []
    requires !IsSpace(second[0]) && !IsSpace(third[0]) && !IsSpace(fourth[0])
    ensures var row := first + (" " + second + (" " + third + (" " + fourth + "")));
            AfterWord(AfterSpaces(AfterWord(AfterSpaces(AfterWord(AfterSpaces(AfterWord(Some(row), first)),
              second)), third)), fourth) == Some("")
  {
    var r3 := " " + fourth + "";
    var r2 := " " + third + r3;
    var r1 := " " + second + r2;
    assert (first + r1)[|first|..] == r1;
    WordAfterSpaces(" ", second, r2);
    WordAfterSpaces(" ", third, r3);
    WordAfterSpaces(" ", fourth, "");
  }

  lemma MapRowKind()
    ensures KindOf(MAP_ROW) == MapRow && NL !in MAP_ROW
  {
    ThreeWords("map", MAP_KEY, MAP_RESULT, "{");
    assert IsMapRow(MAP_ROW) && MAP_ROW[0] == 'm';
    MapKeyHasNoNewline();
    PiecesHaveNoNewline("map", MAP_KEY, MAP_RESULT, "{");
  }

  lemma ConcatHasNoNewline(a: string, b: string)
    requires NL !in a && NL !in b
    ensures NL !in a + b
  {
  }

  lemma MapKeyHasNoNewline()
    ensures NL !in MAP_KEY
  {
    var user, port := "$remote_user", ":$http_x";
    assert NL !in user && NL !in port;
    ConcatHasNoNewline(user, port);
    ConcatHasNoNewline(user + port, "_node_proxy");
    ConcatHasNoNewline(user + port + "_node_proxy", "_port");
  }

  lemma PiecesHaveNoNewline(a: string, b: string, c: string, d: string)
    requires NL !in a && NL !in b && NL !in c && NL !in d
    ensures NL !in a + (" " + b + (" " + c + (" " + d + "")))
  {
  }

  lemma DefaultRowShape(first: string, second: string)
    requires first != [] && second != [] && !IsSpace(first[0]) && !IsSpace(second[0])
    ensures AfterWord(AfterSpaces(AfterWord(AfterSpace("    " + first + (" " + second + "")), first)), second) == Some("")
  {
    WordAfterSpaces("    ", first, " " + second + "");
    WordAfterSpaces(" ", second, "");
  }

  lemma DefaultRowKind()
    ensures KindOf(DEFAULT_ROW) == DefaultRow && NL !in DEFAULT_ROW
  {
    hide AfterSpace, AfterSpaces;
    DefaultRowShape("default", "403;");
    assert IsDefaultRow(DEFAULT_ROW);
    assert DEFAULT_ROW[0] == ' ' && "map"[0] == 'm';
    assert AfterWord(Some(DEFAULT_ROW), "map") == None;
    EmptyStaysEmpty();
    assert !IsMapRow(DEFAULT_ROW);
  }

  lemma EmptyStaysEmpty()
    ensures AfterSpaces(None) == None && AfterSpaces(AfterWord(None, MAP_KEY)) == None
    ensures AfterSpaces(AfterWord(None, MAP_RESULT)) == None && AfterWord(None, "{") == None
  {
  }

  /** The file the container starts with is managed and has no entries. */
  lemma EmptyMapIsManaged()
    ensures Managed(Join(EMPTY_MAP, NL)) && EntriesOf(Join(EMPTY_MAP, NL)) == []
  {
    hide KindOf;
    MapRowKind();
    DefaultRowKind();
    KindOfEmpty();
    KindOfBrace("}");
    JoinedRows(EMPTY_MAP);
    ScanOfFive(EMPTY_MAP[0], EMPTY_MAP[1], EMPTY_MAP[2], EMPTY_MAP[3], EMPTY_MAP[4], INITIAL);
    assert EMPTY_MAP == EMPTY_MAP[..3] + ["}", ""];
    assert MAP_ROW[0] == 'm' && DEFAULT_ROW[0] == ' ';
    BodyOf(EMPTY_MAP[..3], ["}", ""]);
  }

  // The repository.

  datatype Found = Found(raw: Raw, lines: seq<nat>)

  /** The entries of the file with their line numbers, in capture order. */
  function AllFound(rows: seq<string>, entries: seq<Raw>): (found: seq<Found>)
    ensures |found| == |entries|
    ensures forall k :: 0 <= k < |entries| ==> found[k] == Found(entries[k], LinesOf(rows, INITIAL, k))
  {
    seq(|entries|, k requires 0 <= k < |entries| => Found(entries[k], LinesOf(rows, INITIAL, k)))
  }

  function VisibleFound(found: seq<Found>, filter: Option<string>): seq<Found>
    decreases |found|
  {
    if found == [] then [] else
    var above := VisibleFound(found[..|found| - 1], filter);
    var last := found[|found| - 1];
    if Skipped(last.raw, filter) then above else above + [last]
  }

  function RawsOf(found: seq<Found>): (raws: seq<Raw>)
    ensures |raws| == |found|
    ensures forall i :: 0 <= i < |found| ==> raws[i] == found[i].raw
  {
    seq(|found|, i requires 0 <= i < |found| => found[i].raw)
  }

  lemma {:induction false} VisibleFoundRaws(found: seq<Found>, filter: Option<string>)
    ensures RawsOf(VisibleFound(found, filter)) == Visible(RawsOf(found), filter)
    decreases |found|
  {
    hide Skipped;
    if found != [] {
      var n := |found| - 1;
      VisibleFoundRaws(found[..n], filter);
      assert RawsOf(found)[..n] == RawsOf(found[..n]);
      var above := VisibleFound(found[..n], filter);
      assert RawsOf(above + [found[n]]) == RawsOf(above) + [found[n].raw];
    }
  }

  lemma {:induction false} VisibleFoundAll(found: seq<Found>)
    ensures VisibleFound(found, None) == found
    decreases |found|
  {
    if found != [] {
      VisibleFoundAll(found[..|found| - 1]);
    }
  }

  /** What the parser has collected when `rows` are still above the scan. */
  ghost predicate Collected(all: seq<string>, rows: seq<string>, st: Scan, lines: seq<seq<nat>>, skips: seq<bool>,
                            filter: Option<string>)
  {
    && ScanUp(rows, st) == ScanUp(all, INITIAL)
    && |lines| == |skips| == |st.entries|
    && (forall k :: 0 <= k < |skips| ==> skips[k] == Skipped(st.entries[k], filter))
    && forall k: nat :: LinesOf(all, INITIAL, k) == LinesAt(lines, k) + LinesOf(rows, st, k)
  }

  lemma CollectedSizes(all: seq<string>, rows: seq<string>, st: Scan, lines: seq<seq<nat>>, skips: seq<bool>,
                       filter: Option<string>)
    requires Collected(all, rows, st, lines, skips, filter)
    ensures |lines| == |skips| == |st.entries|
  {
  }

  /** At the end of the scan the collected entries, line numbers and skips are those of the file. */
  lemma CollectedAtEnd(all: seq<string>, st: Scan, lines: seq<seq<nat>>, skips: seq<bool>, filter: Option<string>)
    requires Collected(all, [], st, lines, skips, filter)
    ensures st == ScanUp(all, INITIAL) && |lines| == |skips| == |st.entries|
    ensures forall k :: 0 <= k < |st.entries| ==>
                          skips[k] == Skipped(st.entries[k], filter) && LinesOf(all, INITIAL, k) == lines[k]
  {
    hide Skipped;
    forall k | 0 <= k < |st.entries|
      ensures LinesOf(all, INITIAL, k) == lines[k]
    {
      assert LinesOf(all, INITIAL, k) == lines[k] + [] == lines[k];
    }
  }

  lemma CollectedAtStart(rows: seq<string>, filter: Option<string>)
    ensures Collected(rows, rows, INITIAL, [], [], filter)
  {
  }

  /** The lines of entry `k` collected so far. */
  function LinesAt(lines: seq<seq<nat>>, k: nat): seq<nat> {
    if k < |lines| then lines[k] else []
  }

  lemma LinesAdvance(all: seq<string>, rows: seq<string>, st: Scan, k: nat, had: seq<nat>, has: seq<nat>)
    requires rows != [] && LinesOf(all, INITIAL, k) == had + LinesOf(rows, st, k)
    requires has == if Captures(st, KindOf(rows[|rows| - 1]), k) then had + [|rows|] else had
    ensures LinesOf(all, INITIAL, k) == has + LinesOf(rows[..|rows| - 1], Step(st, KindOf(rows[|rows| - 1])), k)
  {
    hide KindOf;
    var n := |rows|;
    var rest := LinesOf(rows[..n - 1], Step(st, KindOf(rows[n - 1])), k);
    assert had + ([n] + rest) == had + [n] + rest;
  }

  lemma CollectedOther(all: seq<string>, rows: seq<string>, st: Scan, lines: seq<seq<nat>>, skips: seq<bool>,
                       filter: Option<string>)
    requires rows != [] && Collected(all, rows, st, lines, skips, filter)
    requires var kind := KindOf(rows[|rows| - 1]); !kind.Rule? && !(kind.Tagging? && Active(st))
    ensures Collected(all, rows[..|rows| - 1], Step(st, KindOf(rows[|rows| - 1])), lines, skips, filter)
  {
    hide KindOf, Skipped;
    forall k: nat
      ensures LinesOf(all, INITIAL, k) ==
              LinesAt(lines, k) + LinesOf(rows[..|rows| - 1], Step(st, KindOf(rows[|rows| - 1])), k)
    {
      LinesAdvance(all, rows, st, k, LinesAt(lines, k), LinesAt(lines, k));
    }
  }

  lemma CollectedRule(all: seq<string>, rows: seq<string>, st: Scan, lines: seq<seq<nat>>, skips: seq<bool>,
                      filter: Option<string>)
    requires rows != [] && Collected(all, rows, st, lines, skips, filter)
    requires KindOf(rows[|rows| - 1]).Rule?
    ensures Collected(all, rows[..|rows| - 1], Step(st, KindOf(rows[|rows| - 1])), lines + [[|rows|]], skips + [false], filter)
  {
    hide KindOf;
    var kind, lines' := KindOf(rows[|rows| - 1]), lines + [[|rows|]];
    forall k: nat
      ensures LinesOf(all, INITIAL, k) == LinesAt(lines', k) + LinesOf(rows[..|rows| - 1], Step(st, kind), k)
    {
      assert [] + [|rows|] == [|rows|];
      LinesAdvance(all, rows, st, k, LinesAt(lines, k), LinesAt(lines', k));
    }
    assert !Skipped(Fresh(kind.rule), filter);
  }

  predicate Mismatch(tag: Tag, filter: Option<string>) {
    tag.UserTag? && !PassesFilter(tag.text, filter)
  }

  lemma TaggedSkipped(e: Raw, tag: Tag, filter: Option<string>)
    ensures Skipped(Tagged(e, tag), filter) <==> Skipped(e, filter) || Mismatch(tag, filter)
  {
    if tag.UserTag? {
      var after := Tagged(e, tag).userRaws;
      assert forall u :: u in after <==> u in e.userRaws || u == tag.text;
    }
  }

  lemma CollectedTag(all: seq<string>, rows: seq<string>, st: Scan, lines: seq<seq<nat>>, skips: seq<bool>,
                     filter: Option<string>)
    requires rows != [] && Collected(all, rows, st, lines, skips, filter)
    requires KindOf(rows[|rows| - 1]).Tagging? && Active(st)
    ensures var k, tag := |st.entries| - 1, KindOf(rows[|rows| - 1]).tag;
            Collected(all, rows[..|rows| - 1], Step(st, Tagging(tag)), lines[k := lines[k] + [|rows|]],
                      skips[k := skips[k] || Mismatch(tag, filter)], filter)
  {
    hide KindOf, Skipped, Mismatch, Tagged;
    var last, kind := |st.entries| - 1, KindOf(rows[|rows| - 1]);
    var lines' := lines[last := lines[last] + [|rows|]];
    forall k: nat
      ensures LinesOf(all, INITIAL, k) == LinesAt(lines', k) + LinesOf(rows[..|rows| - 1], Step(st, kind), k)
    {
      LinesAdvance(all, rows, st, k, LinesAt(lines, k), LinesAt(lines', k));
    }
    TaggedSkipped(st.entries[last], kind.tag, filter);
  }

  /** How one row changes the line numbers and skip marks collected beside the scan. */
  ghost predicate Noted(st: Scan, kind: Kind, n: nat, lines: seq<seq<nat>>, skips: seq<bool>, filter: Option<string>,
                        lines': seq<seq<nat>>, skips': seq<bool>)
    requires |lines| == |skips| == |st.entries|
  {
    if kind.Rule? then lines' == lines + [[n]] && skips' == skips + [false]
    else if kind.Tagging? && Active(st) then
      var k := |st.entries| - 1;
      && lines' == lines[k := lines[k] + [n]]
      && skips' == skips[k := skips[k] || Mismatch(kind.tag, filter)]
    else lines' == lines && skips' == skips
  }

  lemma CollectedStep(all: seq<string>, rows: seq<string>, st: Scan, lines: seq<seq<nat>>, skips: seq<bool>,
                      filter: Option<string>, lines': seq<seq<nat>>, skips': seq<bool>)
    requires rows != [] && Collected(all, rows, st, lines, skips, filter) && |lines| == |skips| == |st.entries|
    requires Noted(st, KindOf(rows[|rows| - 1]), |rows|, lines, skips, filter, lines', skips')
    ensures Collected(all, rows[..|rows| - 1], Step(st, KindOf(rows[|rows| - 1])), lines', skips', filter)
  {
    hide Collected, KindOf, Mismatch, Step;
    var kind := KindOf(rows[|rows| - 1]);
    if kind.Rule? {
      CollectedRule(all, rows, st, lines, skips, filter);
    } else if kind.Tagging? && Active(st) {
      CollectedTag(all, rows, st, lines, skips, filter);
    } else {
      CollectedOther(all, rows, st, lines, skips, filter);
    }
  }

  /** The tests of the parser in their order. */
  lemma KindCases(row: string)
    ensures row == "" ==> KindOf(row) == Empty
    ensures row != "" && IsMapRow(row) ==> KindOf(row) == MapRow
    ensures row != "" && !IsMapRow(row) && IsBraceRow(row) ==> KindOf(row) == BraceRow
    ensures row != "" && !IsMapRow(row) && !IsBraceRow(row) && IsDefaultRow(row) ==> KindOf(row) == DefaultRow
    ensures row != "" && !IsMapRow(row) && !IsBraceRow(row) && !IsDefaultRow(row) ==>
              if RuleOf(row).Some? then KindOf(row) == Rule(RuleOf(row).value)
              else KindOf(row).Tagging? || KindOf(row).Other?
  {
    hide IsMapRow, IsBraceRow, IsDefaultRow, RuleOf, TagOf;
  }

  class NginxProxyAclRepository {
    var text: string
    var readable: bool
    var writable: bool

    constructor (text: string)
      ensures this.text == text && readable && writable
    {
      this.text, readable, writable := text, true, true;
    }

    /** `_fetchRowId`, `_fetchRowUserId` and `_fetchRowDate` on one row, the first that matches. */
    method FetchRow(row: string, e: Raw, filter: Option<string>) returns (next: bool, capture: bool, e': Raw)
      requires KindOf(row).Tagging? || KindOf(row).Other?
      ensures next <==> KindOf(row).Tagging?
      ensures next ==> e' == Tagged(e, KindOf(row).tag) && (capture <==> !Mismatch(KindOf(row).tag, filter))
    {
      hide IsMapRow, IsBraceRow, IsDefaultRow, RuleOf, TagOf, Trim, PassesFilter;
      e' := e;
      var id := TagOf(row, ID);
      if id.Some? {
        return true, true, e.(id := Trim(id.value));
      }
      var userId := TagOf(row, USER_ID);
      if userId.Some? {
        capture := PassesFilter(userId.value, filter);
        return true, capture, e.(userId := Trim(userId.value), userRaws := e.userRaws + [userId.value]);
      }
      var date := TagOf(row, DATE);
      if date.Some? {
        return true, true, e.(date := Trim(date.value));
      }
      return false, false, e;
    }

    /** One pass of the parser's loop. */
    method ScanRow(row: string, lineNumber: nat, st: Scan, lines: seq<seq<nat>>, skips: seq<bool>, filter: Option<string>)
        returns (st': Scan, lines': seq<seq<nat>>, skips': seq<bool>)
      requires |lines| == |skips| == |st.entries|
      ensures st' == Step(st, KindOf(row))
      ensures Noted(st, KindOf(row), lineNumber, lines, skips, filter, lines', skips')
    {
      hide KindOf, IsMapRow, IsBraceRow, IsDefaultRow, RuleOf, Tagged, Mismatch;
      KindCases(row);
      lines', skips' := lines, skips;
      if row == "" {
        return st, lines, skips;
      }
      if IsMapRow(row) {
        return st.(hasMap := true), lines, skips;
      }
      if IsBraceRow(row) {
        return st.(hasEnd := true), lines, skips;
      }
      if IsDefaultRow(row) {
        return st.(hasDefault := true), lines, skips;
      }
      var rule := RuleOf(row);
      if rule.Some? {
        return st.(entries := st.entries + [Fresh(rule.value)], step := 2), lines + [[lineNumber]], skips + [false];
      }
      var aclCounter := |st.entries| - 1;
      if aclCounter > -1 && st.step > 1 && st.step <= TOTAL_STEP {
        var next, capture, e := FetchRow(row, st.entries[aclCounter], filter);
        if next {
          st' := st.(entries := st.entries[aclCounter := e], step := st.step + 1);
          lines' := lines[aclCounter := lines[aclCounter] + [lineNumber]];
          skips' := skips[aclCounter := skips[aclCounter] || !capture];
          return;
        }
      }
      st' := st.(step := 1);
    }

    /** The loop of the parser over the reversed rows. */
    method ScanFile(rows: seq<string>, filter: Option<string>)
        returns (st: Scan, lines: seq<seq<nat>>, skips: seq<bool>)
      ensures Collected(rows, [], st, lines, skips, filter)
    {
      hide Collected, KindOf, Step, Noted;
      var totalLine := |rows|;
      st, lines, skips := INITIAL, [], [];
      assert rows[..totalLine] == rows;
      CollectedAtStart(rows, filter);
      for i := 0 to totalLine
        invariant Collected(rows, rows[..totalLine - i], st, lines, skips, filter)
      {
        var row := rows[totalLine - 1 - i];
        var lineNumber := totalLine - i;
        ghost var above := rows[..lineNumber];
        assert above[..|above| - 1] == rows[..totalLine - (i + 1)] && above[|above| - 1] == row;
        CollectedSizes(rows, above, st, lines, skips, filter);
        var st', lines', skips' := ScanRow(row, lineNumber, st, lines, skips, filter);
        CollectedStep(rows, above, st, lines, skips, filter, lines', skips');
        st, lines, skips := st', lines', skips';
      }
      assert rows[..0] == [];
    }

    /** The parser. The line numbers of an entry are in capture order; `Remove` sorts them. */
    method ParseFile(filter: Option<string>) returns (r: Result<seq<Found>, Error>, rows: seq<string>)
      ensures rows == RowsOf(text)
      ensures !readable ==> r == Failure(RepositoryError)
      ensures readable && Parse(rows).None? ==> r == Failure(InvalidAclFile)
      ensures readable && Parse(rows).Some? ==> r == Success(VisibleFound(AllFound(rows, Parse(rows).value), filter))
    {
      hide KindOf, Split, Skipped, Collected, ScanUp, LinesOf;
      rows := Split(text, NL);
      if !readable {
        return Failure(RepositoryError), rows;
      }
      var st, lines, skips := ScanFile(rows, filter);
      CollectedAtEnd(rows, st, lines, skips, filter);
      if !st.hasMap || !st.hasEnd || !st.hasDefault {
        return Failure(InvalidAclFile), rows;
      }
      if exists e :: e in st.entries && !Complete(e) {
        return Failure(InvalidAclFile), rows;
      }
      var found := [];
      ghost var all := AllFound(rows, st.entries);
      for k := 0 to |st.entries|
        invariant found == VisibleFound(all[..k], filter)
      {
        assert all[..k + 1][..k] == all[..k] && all[..k + 1][k] == Found(st.entries[k], lines[k]);
        if !skips[k] {
          found := found + [Found(st.entries[k], lines[k])];
        }
      }
      assert all[..|st.entries|] == all;
      r := Success(found);
    }

    /** `getAll`: entries grouped by user, or the entry for everyone alone. */
    method GetAll(filter: Option<string>) returns (r: Result<seq<Entry>, Error>)
      ensures !readable ==> r == Failure(RepositoryError)
      ensures readable && Parse(RowsOf(text)).None? ==> r == Failure(InvalidAclFile)
      ensures readable && Parse(RowsOf(text)).Some? ==>
                var list := Listed(Visible(Parse(RowsOf(text)).value, filter));
                r == if list.None? then Failure(RepositoryError) else Success(list.value)
    {
      hide KindOf, Split, Skipped, Decode;
      var parsed, rows := ParseFile(filter);
      if parsed.Failure? {
        return Failure(parsed.error);
      }
      ghost var raws := Visible(Parse(rows).value, filter);
      assert RawsOf(AllFound(rows, Parse(rows).value)) == Parse(rows).value;
      VisibleFoundRaws(AllFound(rows, Parse(rows).value), filter);
      var found := parsed.value;
      assert RawsOf(found) == raws;
      r := FillModelList(RawsOf(found));
    }

    /** `_convertAclToMApObject`: the keys of the map in insertion order, and the map. */
    method ConvertAcl(raws: seq<Raw>)
        returns (ok: bool, keys: seq<Option<string>>, byUser: map<Option<string>, seq<Entry>>, ghost entries: seq<Entry>)
      ensures ok <==> AllDecode(raws)
      ensures ok ==> entries == Decoded(raws) && keys == FirstUsers(entries)
      ensures ok ==> forall u :: u in keys ==> u in byUser && byUser[u] == OfUser(entries, u)
    {
      keys, byUser, entries := [], map[], [];
      IndexedStart();
      hide Decode, Indexed;
      for i := 0 to |raws|
        invariant AllDecode(raws[..i]) && entries == Decoded(raws[..i])
        invariant Indexed(keys, byUser, entries)
      {
        var entry := Decode(raws[i]);
        if entry.None? {
          assert raws[i] in raws;
          return false, keys, byUser, entries;
        }
        var user := entry.value.user;
        IndexedStep(keys, byUser, entries, entry.value);
        if user !in byUser {
          keys := keys + [user];
          byUser := byUser[user := []];
        }
        byUser := byUser[user := byUser[user] + [entry.value]];
        entries := entries + [entry.value];
        DecodedSnoc(raws[..i], raws[i]);
        TakeNext(raws, i);
      }
      assert raws[..|raws|] == raws;
      IndexedMeans(keys, byUser, entries);
      ok := true;
    }

    /** `_fillModelList`: the entry for everyone alone, or the map read back key by key. */
    method FillModelList(raws: seq<Raw>) returns (r: Result<seq<Entry>, Error>)
      ensures r == if Listed(raws).None? then Failure(RepositoryError) else Success(Listed(raws).value)
    {
      hide Decode, DateFrom, FirstUsers, OfUser;
      var global := FirstGlobal(raws);
      if global.Some? {
        return Success([Entry(global.value.id, None, None, DateFrom(global.value.date))]);
      }
      ghost var entries;
      var ok, keys, byUser;
      ok, keys, byUser, entries := ConvertAcl(raws);
      if !ok {
        return Failure(RepositoryError);
      }
      var list := [];
      for i := 0 to |keys|
        invariant list == GroupsOf(entries, keys[..i])
      {
        TakeNext(keys, i);
        list := list + byUser[keys[i]];
      }
      assert keys[..|keys|] == keys;
      r := Success(list);
    }

    /** `create`: the conflict check on the listing for the requesting user, then the new block
        above the closing row. */
    method Create(req: Request, id: string, date: nat) returns (r: Result<Entry, Error>)
      modifies this`text
      ensures !readable ==> r == Failure(RepositoryError)
      ensures readable && CreateResult(old(text), req, id, date).Failure? ==> r == CreateResult(old(text), req, id, date)
      ensures readable && CreateResult(old(text), req, id, date).Success? ==>
                r == if writable then CreateResult(old(text), req, id, date) else Failure(RepositoryError)
      ensures text == if r.Success? then CreatedText(old(text), req, id, date) else old(text)
    {
      hide KindOf, Split, Listed, Visible, Numeral, RuleText, EntryRows;
      var list := GetAll(UserIdOf(req));
      if list.Failure? {
        return Failure(list.error);
      }
      if Conflicts(list.value, req.ports) {
        return Failure(Exist);
      }
      var ports := Form(req);
      if ports.None? {
        return Failure(FillData);
      }
      var block := Join(EntryRows(id, FileUserId(req), Numeral(date), RuleText(UsernameOf(req), ports.value)), NL);
      var all := Split(text, NL);
      var rows := [];
      var i := 0;
      while i < |all| && !IsBraceRow(all[i])
        invariant 0 <= i <= |all| && rows == all[..i]
        invariant forall j :: 0 <= j < i ==> !IsBraceRow(all[j])
      {
        rows := rows + [all[i]];
        i := i + 1;
      }
      BodyEnds(all, i);
      if !writable {
        return Failure(RepositoryError);
      }
      text := Join(rows + [block] + ["}\n"], NL);
      r := Success(Entry(id, UserIdOf(req), ports.value, Some(date)));
    }

    method FindById(found: seq<Found>, id: string) returns (k: nat)
      ensures k <= |found|
      ensures (if k < |found| then Some(k) else None) == IndexOfId(RawsOf(found), id)
    {
      k := 0;
      while k < |found| && found[k].raw.id != id
        invariant 0 <= k <= |found|
        invariant forall j :: 0 <= j < k ==> found[j].raw.id != id
      {
        k := k + 1;
      }
      FirstWithId(RawsOf(found), id, k);
    }

    /** The rows that are neither lines of the entry nor the blank row above the first of them. */
    method OverwriteRows(rows: seq<string>, lines: seq<nat>, sorted: seq<nat>) returns (kept: seq<string>)
      requires sorted != [] && forall l :: l in sorted <==> l in lines
      ensures kept == Kept(rows, lines, sorted[0])
    {
      hide Dropped, Trim;
      kept := [];
      for i := 0 to |rows|
        invariant kept == Kept(rows[..i], lines, sorted[0])
      {
        TakeNext(rows, i);
        KeptSnoc(rows[..i], rows[i], lines, sorted[0]);
        DroppedMeans(rows[i], i + 1, lines, sorted);
        if !(i + 1 in sorted) && !(Trim(rows[i]) == "" && i + 2 == sorted[0]) {
          kept := kept + [rows[i]];
        }
      }
      assert rows[..|rows|] == rows;
    }

    /** `remove`: the lines of the first entry with the id, and the blank row above the first
        line number in the order of `sort()`. */
    method Remove(id: string) returns (r: Result<(), Error>)
      modifies this`text
      ensures !readable ==> r == Failure(RepositoryError)
      ensures readable && Parse(RowsOf(old(text))).None? ==> r == Failure(InvalidAclFile)
      ensures r.Success? ==> text == RemoveText(old(text), id)
      ensures r.Failure? ==> text == old(text)
      ensures readable && writable && Parse(RowsOf(old(text))).Some? ==> r.Success?
      ensures readable && Parse(RowsOf(old(text))).Some? && IndexOfId(Parse(RowsOf(old(text))).value, id).None? ==> r.Success?
    {
      hide KindOf, Split, Skipped, LinesOf, Kept;
      var parsed, rows := ParseFile(None);
      if parsed.Failure? {
        return Failure(parsed.error);
      }
      ghost var entries := Parse(rows).value;
      VisibleFoundAll(AllFound(rows, entries));
      var found := parsed.value;
      assert RawsOf(found) == entries;
      var k := FindById(found, id);
      if k == |found| {
        return Success(());
      }
      EntryHasLines(rows, INITIAL, k);
      var lines := SortAsText(found[k].lines);
      SortedFirst(found[k].lines, lines);
      var overwrite := OverwriteRows(rows, found[k].lines, lines);
      if !writable {
        return Failure(RepositoryError);
      }
      text := Join(overwrite, NL);
      r := Success(());
    }
  }

  lemma {:induction false} FirstWithId(raws: seq<Raw>, id: string, k: nat)
    requires k <= |raws| && forall j :: 0 <= j < k ==> raws[j].id != id
    requires k == |raws| || raws[k].id == id
    ensures IndexOfId(raws, id) == if k < |raws| then Some(k) else None
  {
    if k > 0 {
      FirstWithId(raws[1..], id, k - 1);
    }
  }

  lemma DroppedMeans(row: string, n: nat, lines: seq<nat>, sorted: seq<nat>)
    requires sorted != [] && forall l :: l in sorted <==> l in lines
    ensures Dropped(row, n, lines, sorted[0]) <==> n in sorted || (Trim(row) == "" && n + 1 == sorted[0])
  {
  }

  /** The map from users to their entries, with its keys in insertion order. */
  ghost predicate Indexed(keys: seq<Option<string>>, byUser: map<Option<string>, seq<Entry>>, entries: seq<Entry>) {
    && keys == FirstUsers(entries)
    && (forall u :: u in keys <==> u in byUser)
    && forall u :: u in byUser ==> byUser[u] == OfUser(entries, u)
  }

  lemma IndexedStart()
    ensures Indexed([], map[], [])
  {
  }

  lemma IndexedMeans(keys: seq<Option<string>>, byUser: map<Option<string>, seq<Entry>>, entries: seq<Entry>)
    requires Indexed(keys, byUser, entries)
    ensures keys == FirstUsers(entries)
    ensures forall u :: u in keys ==> u in byUser && byUser[u] == OfUser(entries, u)
  {
  }

  lemma IndexedStep(keys: seq<Option<string>>, byUser: map<Option<string>, seq<Entry>>, entries: seq<Entry>, e: Entry)
    requires Indexed(keys, byUser, entries)
    ensures var had := if e.user in byUser then byUser[e.user] else [];
            var byUser' := (if e.user in byUser then byUser else byUser[e.user := []])[e.user := had + [e]];
            Indexed(if e.user in byUser then keys else keys + [e.user], byUser', entries + [e])
  {
    hide FirstUsers, OfUser;
    if e.user !in byUser {
      NoEntriesYet(entries, e.user);
    }
    GroupsSnoc(entries, e);
  }

  lemma DecodedSnoc(raws: seq<Raw>, r: Raw)
    requires AllDecode(raws) && Decode(r).Some?
    ensures AllDecode(raws + [r]) && Decoded(raws + [r]) == Decoded(raws) + [Decode(r).value]
  {
    hide Decode;
    forall x | x in raws + [r]
      ensures Decode(x).Some?
    {
    }
    assert Decoded(raws + [r]) == Decoded(raws) + [Decode(r).value];
  }

  lemma GroupsSnoc(entries: seq<Entry>, e: Entry)
    ensures FirstUsers(entries + [e]) ==
            if e.user in FirstUsers(entries) then FirstUsers(entries) else FirstUsers(entries) + [e.user]
    ensures forall u :: OfUser(entries + [e], u) ==
                        if e.user == u then OfUser(entries, u) + [e] else OfUser(entries, u)
  {
    assert (entries + [e])[..|entries|] == entries;
  }

  lemma {:induction false} NoEntriesYet(entries: seq<Entry>, user: Option<string>)
    requires user !in FirstUsers(entries)
    ensures OfUser(entries, user) == []
    decreases |entries|
  {
    if entries != [] {
      NoEntriesYet(entries[..|entries| - 1], user);
    }
  }

  lemma {:induction false} BodyEnds(rows: seq<string>, i: nat)
    requires i <= |rows| && forall j :: 0 <= j < i ==> !IsBraceRow(rows[j])
    requires i == |rows| || IsBraceRow(rows[i])
    ensures Body(rows) == rows[..i]
  {
    if i == |rows| {
      NoBrace(rows);
      assert rows[..i] == rows;
    } else {
      BodyOf(rows[..i], rows[i..]);
      assert rows == rows[..i] + rows[i..];
    }
  }

  lemma {:induction false} NoBrace(rows: seq<string>)
    requires forall j :: 0 <= j < |rows| ==> !IsBraceRow(rows[j])
    ensures Body(rows) == rows
  {
    if rows != [] {
      NoBrace(rows[1..]);
    }
  }

  lemma SameTextOrder(a: nat, b: nat)
    requires TextAtMost(a, b) && TextAtMost(b, a)
    ensures a == b
  {
    TextLessTotal(Numeral(a), Numeral(b));
    NumeralRoundTrip(a);
    NumeralRoundTrip(b);
  }

  lemma {:induction false} TextLessTotal(a: string, b: string)
    ensures TextLess(a, b) || TextLess(b, a) || a == b
  {
    if a != [] && b != [] {
      TextLessTotal(a[1..], b[1..]);
      assert a == [a[0]] + a[1..] && b == [b[0]] + b[1..];
    }
  }

  /** Whatever `sort()` makes of the lines, the first is `TextFirst` and the members stay. */
  lemma SortedFirst(lines: seq<nat>, sorted: seq<nat>)
    requires lines != [] && multiset(sorted) == multiset(lines) && SortedAsText(sorted)
    ensures sorted != [] && sorted[0] == TextFirst(lines)
    ensures forall l :: l in sorted <==> l in lines
  {
    forall l
      ensures l in sorted <==> l in lines
    {
      assert l in sorted <==> l in multiset(sorted);
      assert l in lines <==> l in multiset(lines);
    }
    var first := TextFirst(lines);
    assert first in sorted;
    TextAtMostReflexive(first);
    SameTextOrder(sorted[0], first);
  }
}
