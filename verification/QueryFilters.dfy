// The filters of the reporting views: choices ticked in the console, compiled to
// clauses and parameters (manager/api/periods.py, manager/api/calls.py).
module QueryFilters {
  import opened LikePattern
  import opened SqlClauses
  import opened Text

  const UNASSIGNED := "(unassigned)"
  const NO_REASON := "(aucune cause)"
  const UNKNOWN := "unknown"

  const OUTCOMES := ["not_established", "completed", "failed", "ivr_only"]
  const VIDEO_STATES := ["ok", "oneway", "stalled", "no_picture", UNKNOWN]

  const SEARCHED := ["call_id", "room", "source_uri", "source_number", "source_name",
                     "peer_display_name", "gw_alias", "org_unit", "peer_user_agent",
                     "gw_version", "baresip_patch", "video_codec", "audio_codec"]

  // ------------------------------------------------------------ the choices

  // s.split(",")
  function Split(s: string): (pieces: seq<string>)
    ensures pieces != []
  {
    if s == "" then [""]
    else
      var rest := Split(s[1..]);
      if s[0] == ',' then [""] + rest else [[s[0]] + rest[0]] + rest[1..]
  }

  // names.join(","), as the console sends a list.
  function Join(names: seq<string>): string {
    if names == [] then ""
    else if |names| == 1 then names[0]
    else names[0] + "," + Join(names[1..])
  }

  lemma {:induction false} SplitComma(head: string, tail: string)
    requires ',' !in head
    ensures Split(head + "," + tail) == [head] + Split(tail)
  {
    var s := head + "," + tail;
    if head == "" {
      assert s[1..] == tail;
    } else {
      assert s[1..] == head[1..] + "," + tail;
      SplitComma(head[1..], tail);
      assert [head[0]] + head[1..] == head;
    }
  }

  lemma {:induction false} SplitWhole(s: string)
    requires ',' !in s
    ensures Split(s) == [s]
  {
    if s != "" {
      SplitWhole(s[1..]);
      assert [s[0]] + s[1..] == s;
    }
  }

  lemma {:induction false} SplitJoin(names: seq<string>)
    requires names != [] && forall n | n in names :: ',' !in n
    ensures Split(Join(names)) == names
  {
    assert names[0] in names;
    if |names| == 1 {
      SplitWhole(names[0]);
    } else {
      SplitJoin(names[1..]);
      SplitComma(names[0], Join(names[1..]));
    }
  }

  lemma {:induction false} SplitHasNoComma(s: string)
    ensures forall p | p in Split(s) :: ',' !in p
  {
    if s != "" {
      SplitHasNoComma(s[1..]);
      assert Split(s[1..])[0] in Split(s[1..]);
    }
  }

  // The pieces that hold something.
  function NonEmpty(pieces: seq<string>): seq<string> {
    if pieces == [] then []
    else (if pieces[0] != "" then [pieces[0]] else []) + NonEmpty(pieces[1..])
  }

  function Stripped(pieces: seq<string>): seq<string> {
    if pieces == [] then [] else [Strip(pieces[0])] + Stripped(pieces[1..])
  }

  // The units asked for; none given and none left are the same.
  function Units(units: Option<string>): seq<string> {
    if units.None? || units.value == "" then [] else NonEmpty(Stripped(Split(units.value)))
  }

  datatype Picked = Picks(values: seq<string>) | BadRequest

  // choices(): the values are not trimmed, and all must be known.
  function Choices(value: Option<string>, allowed: seq<string>): (r: Picked)
    ensures r.Picks? ==> forall v | v in r.values :: v in allowed
  {
    var picked := NonEmpty(Split(ValueOr(value, "")));
    if exists v :: v in picked && v !in allowed then BadRequest else Picks(picked)
  }

  lemma {:induction false} NonEmptyIs(pieces: seq<string>)
    ensures forall p :: p in NonEmpty(pieces) <==> p in pieces && p != ""
    ensures (forall p | p in pieces :: p != "") ==> NonEmpty(pieces) == pieces
  {
    if pieces != [] {
      NonEmptyIs(pieces[1..]);
      assert pieces == [pieces[0]] + pieces[1..];
      if forall p | p in pieces :: p != "" {
        assert pieces[0] in pieces && forall p | p in pieces[1..] :: p in pieces;
      }
    }
  }

  // Strip leaves it as it is: no blank at either end.
  predicate IsTrimmed(s: string) { s == "" || (!IsSpace(s[0]) && !IsSpace(s[|s| - 1])) }

  lemma StripKeeps(s: string)
    ensures IsTrimmed(s) <==> Strip(s) == s
  {
    if Strip(s) == s {
      assert |TrimRight(s)| == |s|;
    }
  }

  lemma StripTrims(s: string)
    ensures IsTrimmed(Strip(s)) && forall c | c in Strip(s) :: c in s
  {
    var right := TrimRight(s);
    var t := TrimLeft(right);
    assert t != "" ==> t[|t| - 1] == right[|right| - 1];
  }

  predicate NoComma(pieces: seq<string>) { forall p | p in pieces :: ',' !in p }

  predicate AllTrimmed(pieces: seq<string>) { forall p | p in pieces :: IsTrimmed(p) }

  lemma {:induction false} StrippedIs(pieces: seq<string>)
    requires NoComma(pieces)
    ensures AllTrimmed(Stripped(pieces)) && NoComma(Stripped(pieces))
  {
    if pieces != [] {
      assert pieces[0] in pieces && forall p | p in pieces[1..] :: p in pieces;
      StrippedIs(pieces[1..]);
      StripTrims(pieces[0]);
    }
  }

  lemma {:induction false} TrimmedStays(pieces: seq<string>)
    requires AllTrimmed(pieces)
    ensures Stripped(pieces) == pieces
  {
    if pieces != [] {
      assert pieces[0] in pieces && forall p | p in pieces[1..] :: p in pieces;
      TrimmedStays(pieces[1..]);
      StripKeeps(pieces[0]);
      assert pieces == [pieces[0]] + pieces[1..];
    }
  }

  predicate Sendable(n: string) { n != "" && ',' !in n && IsTrimmed(n) }

  lemma UnitsAreSendable(units: Option<string>)
    ensures forall n | n in Units(units) :: Sendable(n)
  {
    if units.Some? && units.value != "" {
      SplitHasNoComma(units.value);
      StrippedIs(Split(units.value));
      NonEmptyIs(Stripped(Split(units.value)));
    }
  }

  // A list of names comes back as it was sent exactly when every name is
  // non-empty, free of commas and without blanks around it.
  lemma UnitsRoundTrip(names: seq<string>)
    ensures Units(Some(Join(names))) == names <==> forall n | n in names :: Sendable(n)
  {
    UnitsAreSendable(Some(Join(names)));
    if names != [] && forall n | n in names :: Sendable(n) {
      SplitJoin(names);
      TrimmedStays(names);
      NonEmptyIs(names);
      assert names[0] in names;
      assert Join(names) != "" by { NotEmptyJoin(names); }
    }
  }

  lemma NotEmptyJoin(names: seq<string>)
    requires names != [] && names[0] != ""
    ensures Join(names) != ""
  {
  }

  // The same for the closed lists: known values only, or the request is refused.
  lemma ChoicesRoundTrip(values: seq<string>, allowed: seq<string>)
    ensures Choices(Some(Join(values)), allowed) == Picks(values) <==>
            forall v | v in values :: v in allowed && v != "" && ',' !in v
  {
    var sent := Join(values);
    SplitHasNoComma(sent);
    NonEmptyIs(Split(sent));
    if values != [] && forall v | v in values :: v in allowed && v != "" && ',' !in v {
      SplitJoin(values);
    }
  }

  // A value nobody knows is never dropped in silence.
  lemma UnknownChoiceIsRefused(values: seq<string>, allowed: seq<string>)
    requires forall v | v in values :: ',' !in v
    ensures Choices(Some(Join(values)), allowed) == BadRequest <==> exists v :: v in values && v != "" && v !in allowed
  {
    NonEmptyIs(Split(Join(values)));
    if values != [] {
      SplitJoin(values);
    }
  }

  // ------------------------------------------------- one column, one or more

  function Without(list: seq<string>, word: string): seq<string> {
    if list == [] then []
    else (if list[0] != word then [list[0]] else []) + Without(list[1..], word)
  }

  lemma {:induction false} WithoutIs(list: seq<string>, word: string)
    ensures forall x :: x in Without(list, word) <==> x in list && x != word
    ensures |Without(list, word)| <= |list|
    ensures |Without(list, word)| == |list| <==> word !in list
  {
    if list != [] {
      WithoutIs(list[1..], word);
      assert list == [list[0]] + list[1..];
    }
  }

  // Some values of a column, one word standing for NULL: what the pair of
  // clauses keeps.
  predicate OneOf(column: string, chosen: seq<string>, forNull: string, row: Row) {
    match Field(row, column)
    case None => forNull in chosen
    case Some(v) => v in chosen && v != forNull
  }

  lemma PairMeans(column: string, chosen: seq<string>, forNull: string, cs: seq<Clause>, ps: seq<Value>)
    requires chosen != []
    requires cs == (if Without(chosen, forNull) != [] then [EqualAny(column)] else []) +
                   (if forNull in chosen then [IsNull(column)] else [])
    requires ps == if Without(chosen, forNull) != [] then [Words(Without(chosen, forNull))] else []
    ensures Binds([Either(cs)], ps)
    ensures forall row: Row :: Keeps([Either(cs)], ps, row) <==> OneOf(column, chosen, forNull, row)
  {
    WithoutIs(chosen, forNull);
    var known := Without(chosen, forNull);
    assert chosen[0] in chosen;
    forall row: Row
      ensures EvalEither(cs, row, ps).Got? && EvalEither(cs, row, ps).rest == []
      ensures EvalEither(cs, row, ps).value == True <==> OneOf(column, chosen, forNull, row)
    {
      var r := PairReads(column, known, forNull in chosen, row, cs, ps);
    }
    BindsEither(cs, ps);
  }

  lemma PairReads(column: string, known: seq<string>, orNull: bool, row: Row, cs: seq<Clause>, ps: seq<Value>)
    returns (r: Truth)
    requires known != [] || orNull
    requires cs == (if known != [] then [EqualAny(column)] else []) + (if orNull then [IsNull(column)] else [])
    requires ps == if known != [] then [Words(known)] else []
    ensures EvalEither(cs, row, ps) == Got(r, [])
    ensures r == True <==> match Field(row, column) case None => orNull case Some(v) => v in known
  {
    var isNull, any := Is(Field(row, column).None?), EqualAnyOf(Field(row, column), known);
    assert orNull ==> EvalEither([IsNull(column)], row, []) == Got(isNull, []) by {
      EitherOne(IsNull(column), row, []);
    }
    if known == [] {
      assert cs == [IsNull(column)];
      r := isNull;
    } else {
      assert EvalClause(EqualAny(column), row, ps) == Got(any, []);
      if orNull {
        EitherMore(EqualAny(column), [IsNull(column)], row, ps);
        r := Or(any, isNull);
      } else {
        assert cs == [EqualAny(column)];
        EitherOne(EqualAny(column), row, ps);
        r := any;
      }
    }
  }

  // The same choice by the name the console shows.
  function Shown(column: string, forNull: string, row: Row): string {
    if Field(row, column).Some? then Field(row, column).value else forNull
  }

  // It is the choice of the shown names unless a row holds the very word that
  // stands for NULL, and that word is chosen.
  lemma OneOfByName(column: string, chosen: seq<string>, forNull: string, row: Row)
    ensures (OneOf(column, chosen, forNull, row) <==> Shown(column, forNull, row) in chosen) <==>
            !(Field(row, column) == Some(forNull) && forNull in chosen)
  {
  }

  // ------------------------------------------------------------------ units

  predicate UnitWanted(chosen: seq<string>, row: Row) {
    chosen == [] || OneOf("org_unit", chosen, UNASSIGNED, row)
  }

  // The pieces of a joined list are those of its names, one name after the other.
  function Pieces(names: seq<string>): seq<string> {
    if names == [] then [] else Split(names[0]) + Pieces(names[1..])
  }

  lemma {:induction false} SplitConcat(a: string, b: string)
    ensures Split(a + "," + b) == Split(a) + Split(b)
  {
    var s := a + "," + b;
    if a == "" {
      assert s[1..] == b;
    } else {
      assert s[0] == a[0] && s[1..] == a[1..] + "," + b;
      SplitConcat(a[1..], b);
    }
  }

  lemma {:induction false} SplitOfJoin(names: seq<string>)
    requires names != []
    ensures Split(Join(names)) == Pieces(names)
  {
    if |names| == 1 {
      assert names[1..] == [];
    } else {
      SplitOfJoin(names[1..]);
      SplitConcat(names[0], Join(names[1..]));
    }
  }

  lemma {:induction false} InPieces(names: seq<string>, n: string)
    requires n in names && ',' !in n
    ensures n in Pieces(names)
  {
    if names[0] == n {
      SplitWhole(n);
      assert n in Split(names[0]);
    } else {
      assert names == [names[0]] + names[1..];
      InPieces(names[1..], n);
    }
  }

  lemma {:induction false} StrippedAt(pieces: seq<string>, i: nat)
    requires i < |pieces|
    ensures |Stripped(pieces)| == |pieces| && Stripped(pieces)[i] == Strip(pieces[i])
  {
    if |pieces| > 1 {
      StrippedAt(pieces[1..], if i > 0 then i - 1 else 0);
    }
  }

  lemma InStripped(pieces: seq<string>, p: string)
    requires p in pieces && IsTrimmed(p)
    ensures p in Stripped(pieces)
  {
    var i :| 0 <= i < |pieces| && pieces[i] == p;
    StrippedAt(pieces, i);
    StripKeeps(p);
  }

  // A name that survives the sending is asked for, whatever the others are.
  lemma SendableIsAsked(names: seq<string>, n: string)
    requires n in names && Sendable(n)
    ensures n in Units(Some(Join(names)))
  {
    SplitOfJoin(names);
    InPieces(names, n);
    InStripped(Pieces(names), n);
    NonEmptyIs(Stripped(Pieces(names)));
    assert Join(names) == "" ==> Pieces(names) == [""];
  }

  predicate Spaces(s: string) { s == "" || (IsSpace(s[0]) && Spaces(s[1..])) }

  predicate AllSpaces(pieces: seq<string>) { pieces == [] || (Spaces(pieces[0]) && AllSpaces(pieces[1..])) }

  // Blanks and commas, and nothing else.
  predicate Blank(s: string) { s == "" || ((IsSpace(s[0]) || s[0] == ',') && Blank(s[1..])) }

  lemma {:induction false} SpacesIs(s: string)
    ensures Spaces(s) <==> forall i :: 0 <= i < |s| ==> IsSpace(s[i])
  {
    if s != "" {
      SpacesIs(s[1..]);
      assert forall i :: 0 < i < |s| ==> s[i] == s[1..][i - 1];
    }
  }

  lemma StripSpaces(s: string)
    ensures Strip(s) == "" <==> Spaces(s)
  {
    var right := TrimRight(s);
    SpacesIs(s);
    assert right != "" ==> Leading(right, 0) < |right|;
  }

  lemma {:induction false} NothingLeft(pieces: seq<string>)
    ensures NonEmpty(Stripped(pieces)) == [] <==> AllSpaces(pieces)
  {
    if pieces != [] {
      StripSpaces(pieces[0]);
      NothingLeft(pieces[1..]);
      assert Stripped(pieces)[1..] == Stripped(pieces[1..]);
    }
  }

  lemma {:induction false} SpacesSplit(s: string)
    ensures AllSpaces(Split(s)) <==> Blank(s)
  {
    if s != "" {
      var rest := Split(s[1..]);
      SpacesSplit(s[1..]);
      if s[0] == ',' {
        assert Split(s)[1..] == rest;
      } else {
        assert Split(s)[0] == [s[0]] + rest[0] && Split(s)[1..] == rest[1..];
        assert ([s[0]] + rest[0])[1..] == rest[0];
      }
    } else {
      assert [""][1..] == [];
    }
  }

  lemma {:induction false} BlankConcat(a: string, b: string)
    ensures Blank(a + "," + b) <==> Blank(a) && Blank(b)
  {
    var s := a + "," + b;
    if a == "" {
      assert s[1..] == b;
    } else {
      assert s[0] == a[0] && s[1..] == a[1..] + "," + b;
      BlankConcat(a[1..], b);
    }
  }

  lemma {:induction false} BlankJoin(names: seq<string>)
    ensures Blank(Join(names)) <==> forall n | n in names :: Blank(n)
  {
    if names != [] {
      assert names == [names[0]] + names[1..];
      BlankJoin(names[1..]);
      if |names| > 1 {
        BlankConcat(names[0], Join(names[1..]));
      }
    }
  }

  // Nothing is asked for exactly when the names are made of blanks and commas.
  lemma NothingAsked(names: seq<string>)
    ensures Units(Some(Join(names))) == [] <==> forall n | n in names :: Blank(n)
  {
    BlankJoin(names);
    SpacesSplit(Join(names));
    NothingLeft(Split(Join(names)));
  }

  // The row's unit can be sent and is no stand-in for NULL.
  predicate Tickable(row: Row) {
    match Field(row, "org_unit")
    case None => true
    case Some(unit) => Sendable(unit) && unit != UNASSIGNED
  }

  // Ticking every unit shown keeps every row, as no filter does, exactly when
  // every unit can be sent and none is literally "(unassigned)", or when
  // nothing at all can be read in what was sent.
  lemma EveryUnitTicked(rows: seq<Row>, names: seq<string>)
    requires forall row | row in rows :: Shown("org_unit", UNASSIGNED, row) in names
    ensures (forall row | row in rows :: UnitWanted(Units(Some(Join(names))), row)) <==>
            (forall n | n in names :: Blank(n)) || (forall row | row in rows :: Tickable(row))
  {
    var asked := Units(Some(Join(names)));
    NothingAsked(names);
    UnitsAreSendable(Some(Join(names)));
    if asked != [] {
      forall row | row in rows
        ensures UnitWanted(asked, row) <==> Tickable(row)
      {
        TickedRow(names, row);
      }
    }
  }

  lemma TickedRow(names: seq<string>, row: Row)
    requires Shown("org_unit", UNASSIGNED, row) in names && Units(Some(Join(names))) != []
    ensures UnitWanted(Units(Some(Join(names))), row) <==> Tickable(row)
  {
    var shown := Shown("org_unit", UNASSIGNED, row);
    UnitsAreSendable(Some(Join(names)));
    if Sendable(shown) {
      SendableIsAsked(names, shown);
    }
    UnassignedIsSendable();
  }

  lemma UnassignedIsSendable()
    ensures Sendable(UNASSIGNED)
  {
  }

  // A unit with a comma in its name is lost however the boxes are ticked.
  lemma CommaUnitIsLost(row: Row)
    requires Field(row, "org_unit") == Some("A,B")
    ensures !UnitWanted(Units(Some(Join(["A,B"]))), row)
  {
    EveryUnitTicked([row], ["A,B"]);
    assert row in [row];
    LetterIsNotBlank("A,B");
    assert ',' == "A,B"[1];
  }

  lemma LetterIsNotBlank(s: string)
    requires s != "" && s[0] == 'A'
    ensures !Blank(s)
  {
  }

  method UnitFilter(units: Option<string>) returns (sql: seq<Clause>, params: seq<Value>)
    ensures Binds(sql, params)
    ensures forall row: Row :: Keeps(sql, params, row) <==> UnitWanted(Units(units), row)
  {
    sql, params := [], [];
    var wanted := Units(units);
    if wanted == [] {
      return;
    }
    var named := Without(wanted, UNASSIGNED);
    var clauses := [];
    if named != [] {
      clauses := clauses + [EqualAny("org_unit")];
      params := params + [Words(named)];
    }
    if |named| != |wanted| {
      clauses := clauses + [IsNull("org_unit")];
    }
    WithoutIs(wanted, UNASSIGNED);
    PairMeans("org_unit", wanted, UNASSIGNED, clauses, params);
    sql := [Either(clauses)];
  }

  // The calls Usage and Quality count.
  method CallScope(units: Option<string>) returns (sql: seq<Clause>, params: seq<Value>)
    ensures Binds(sql, params)
    ensures forall row: Row ::
              Keeps(sql, params, row) <==> row.userCall == True && UnitWanted(Units(units), row)
  {
    var wanted;
    wanted, params := UnitFilter(units);
    sql := [IsUserCall] + wanted;
    BindsOne(IsUserCall, []);
    BindsJoin([IsUserCall], wanted, [], params);
    assert [] + params == params;
  }

  // ---------------------------------------------------------- exact filters

  // The close reason as the Quality view names it: none and empty are one.
  function ReasonName(row: Row): string {
    match Field(row, "close_reason")
    case None => NO_REASON
    case Some(text) => if text == "" then NO_REASON else text
  }

  predicate ReasonWanted(reason: Option<string>, row: Row) { reason.Some? ==> ReasonName(row) == reason.value }

  // A call without an outcome is in no list of outcomes.
  predicate OutcomeWanted(outcomes: seq<string>, row: Row) {
    outcomes != [] ==> Field(row, "outcome").Some? && Field(row, "outcome").value in outcomes
  }

  predicate VideoWanted(videos: seq<string>, row: Row) {
    videos != [] ==> OneOf("video_state", videos, UNKNOWN, row)
  }

  predicate NoFilter(reason: Option<string>, outcomes: seq<string>, videos: seq<string>) {
    reason.None? && outcomes == [] && videos == []
  }

  predicate ExactlyWanted(reason: Option<string>, outcomes: seq<string>, videos: seq<string>, row: Row) {
    NoFilter(reason, outcomes, videos) ||
    (row.userCall == True && ReasonWanted(reason, row) && OutcomeWanted(outcomes, row) && VideoWanted(videos, row))
  }

  const REASON_IS := Equal(Coalesce(NullIf(Column("close_reason"), Quoted("")), Slot), Slot)

  lemma ReasonMeans(reason: string)
    ensures Binds([REASON_IS], [Word(NO_REASON), Word(reason)])
    ensures forall row: Row ::
              Keeps([REASON_IS], [Word(NO_REASON), Word(reason)], row) <==> ReasonName(row) == reason
  {
    var ps := [Word(NO_REASON), Word(reason)];
    forall row: Row
      ensures EvalClause(REASON_IS, row, ps) == Got(Is(ReasonName(row) == reason), [])
    {
      var named := REASON_IS.a.a;
      assert EvalTerm(named.a, row, ps) == Got(Field(row, "close_reason"), ps);
      assert EvalTerm(named.b, row, ps) == Got(Some(""), ps);
      assert EvalTerm(named, row, ps).Got? && EvalTerm(named, row, ps).rest == ps;
      assert ps[1..] == [Word(reason)] && ps[1..][1..] == [];
      assert EvalTerm(REASON_IS.a, row, ps) == Got(Some(ReasonName(row)), ps[1..]);
    }
    BindsOne(REASON_IS, ps);
  }

  lemma OutcomeMeans(outcomes: seq<string>)
    requires outcomes != []
    ensures Binds([EqualAny("outcome")], [Words(outcomes)])
    ensures forall row: Row :: Keeps([EqualAny("outcome")], [Words(outcomes)], row) <==> OutcomeWanted(outcomes, row)
  {
    BindsOne(EqualAny("outcome"), [Words(outcomes)]);
  }

  method ExactFilters(reason: Option<string>, outcomes: seq<string>, videos: seq<string>)
    returns (filters: seq<Clause>, params: seq<Value>)
    ensures Binds(filters, params)
    ensures forall row: Row :: Keeps(filters, params, row) <==> ExactlyWanted(reason, outcomes, videos, row)
  {
    filters, params := [], [];
    if reason.Some? {
      ReasonMeans(reason.value);
      BindsJoin(filters, [REASON_IS], params, [Word(NO_REASON), Word(reason.value)]);
      filters := filters + [REASON_IS];
      params := params + [Word(NO_REASON), Word(reason.value)];
    }
    assert forall row: Row :: Keeps(filters, params, row) <==> ReasonWanted(reason, row);
    if outcomes != [] {
      OutcomeMeans(outcomes);
      BindsJoin(filters, [EqualAny("outcome")], params, [Words(outcomes)]);
      filters := filters + [EqualAny("outcome")];
      params := params + [Words(outcomes)];
    }
    assert forall row: Row ::
        Keeps(filters, params, row) <==> ReasonWanted(reason, row) && OutcomeWanted(outcomes, row);
    if videos != [] {
      var known := Without(videos, UNKNOWN);
      var clauses := (if known != [] then [EqualAny("video_state")] else []) +
                     (if UNKNOWN in videos then [IsNull("video_state")] else []);
      ghost var ps := if known != [] then [Words(known)] else [];
      PairMeans("video_state", videos, UNKNOWN, clauses, ps);
      BindsJoin(filters, [Either(clauses)], params, ps);
      filters := filters + [Either(clauses)];
      assert params + [] == params;
      if known != [] {
        params := params + [Words(known)];
      }
    }
    if filters != [] {
      BindsOne(IsUserCall, []);
      BindsJoin([IsUserCall], filters, [], params);
      assert [] + params == params;
      filters := [IsUserCall] + filters;
    }
  }

  // Ticking every outcome still leaves out the calls that have none; ticking
  // every video state leaves out none the ingestion writes.
  lemma EveryBoxTicked(row: Row)
    requires row.userCall == True
    requires Field(row, "outcome").Some? ==> Field(row, "outcome").value in OUTCOMES
    requires Field(row, "video_state").Some? ==> Field(row, "video_state").value in VIDEO_STATES
    ensures ExactlyWanted(None, OUTCOMES, [], row) <==> Field(row, "outcome").Some?
    ensures ExactlyWanted(None, [], VIDEO_STATES, row) <==> Field(row, "video_state") != Some("unknown")
  {
    assert UNKNOWN == VIDEO_STATES[4];
  }

  // -------------------------------------------------------- the call search

  function Searches(columns: seq<string>): (cs: seq<Clause>)
    ensures |cs| == |columns|
  {
    if columns == [] then [] else [Matches(columns[0])] + Searches(columns[1..])
  }

  function Copies(v: Value, n: nat): seq<Value> {
    if n == 0 then [] else [v] + Copies(v, n - 1)
  }

  ghost predicate Shows(row: Row, columns: seq<string>, q: string) {
    exists c :: c in columns && Field(row, c).Some? && Contains(Field(row, c).value, q)
  }

  // As many patterns as columns, and some column holds the text searched.
  lemma {:induction false} SearchesMean(columns: seq<string>, q: string, row: Row)
    requires columns != []
    ensures var r := EvalEither(Searches(columns), row, Copies(Word(Pattern(q)), |columns|));
            r.Got? && r.rest == [] && (r.value == True <==> Shows(row, columns, q))
  {
    var ps := Copies(Word(Pattern(q)), |columns|);
    var first := columns[0];
    assert columns == [first] + columns[1..];
    assert ps[1..] == Copies(Word(Pattern(q)), |columns| - 1);
    assert Searches(columns)[1..] == Searches(columns[1..]);
    if Field(row, first).Some? {
      PatternMeansContains(q, Field(row, first).value);
    }
    var found := Field(row, first).Some? && Contains(Field(row, first).value, q);
    assert Shows(row, columns, q) <==> found || Shows(row, columns[1..], q) by {
      assert forall c :: c in columns <==> c == first || c in columns[1..];
    }
    var x := EvalClause(Matches(first), row, ps);
    assert x.Got? && x.rest == ps[1..] && (x.value == True <==> found);
    assert Searches(columns)[0] == Matches(first);
    if |columns| > 1 {
      SearchesMean(columns[1..], q, row);
      EitherMore(Matches(first), Searches(columns[1..]), row, ps);
    } else {
      assert columns[1..] == [] && Searches(columns) == [Matches(first)];
      EitherOne(Matches(first), row, ps);
    }
  }

  ghost predicate SearchWanted(columns: seq<string>, q: string, row: Row) { q == "" || Shows(row, columns, q) }

  method SearchClause(columns: seq<string>, q: string) returns (search: Clause, params: seq<Value>)
    requires columns != []
    ensures Binds([search], params)
    ensures forall row: Row :: Keeps([search], params, row) <==> SearchWanted(columns, q, row)
  {
    var cs := [Equal(Slot, Quoted(""))] + Searches(columns);
    params := [Word(q)] + Copies(Word(Pattern(q)), |columns|);
    search := Either(cs);
    assert cs[1..] == Searches(columns) && params[1..] == Copies(Word(Pattern(q)), |columns|);
    forall row: Row
      ensures EvalEither(cs, row, params).Got? && EvalEither(cs, row, params).rest == []
      ensures EvalEither(cs, row, params).value == True <==> SearchWanted(columns, q, row)
    {
      SearchesMean(columns, q, row);
      assert EvalClause(cs[0], row, params) == Got(Is(q == ""), params[1..]);
    }
    BindsEither(cs, params);
  }

  predicate InWindow(since: int, until: int, row: Row) { row.start.Some? && since <= row.start.value <= until }

  lemma WindowMeans(since: int, until: int)
    ensures Binds([StartsFrom, StartsUntil], [Instant(since), Instant(until)])
    ensures forall row: Row ::
              Keeps([StartsFrom, StartsUntil], [Instant(since), Instant(until)], row) <==> InWindow(since, until, row)
  {
    BindsOne(StartsFrom, [Instant(since)]);
    BindsOne(StartsUntil, [Instant(until)]);
    BindsJoin([StartsFrom], [StartsUntil], [Instant(since)], [Instant(until)]);
    assert [StartsFrom] + [StartsUntil] == [StartsFrom, StartsUntil];
    assert [Instant(since)] + [Instant(until)] == [Instant(since), Instant(until)];
  }

  // The WHERE of the call log and the whole parameter list: the two left over
  // are LIMIT's and OFFSET's.
  method SearchCalls(since: int, until: int, q: string, reason: Option<string>,
                     outcomes: seq<string>, videos: seq<string>, limit: int, offset: int)
    returns (sql: seq<Clause>, params: seq<Value>)
    ensures forall row: Row ::
              EvalAll(sql, row, params).Got? && EvalAll(sql, row, params).rest == [Number(limit), Number(offset)]
    ensures forall row: Row ::
              Keeps(sql, params, row) <==>
              InWindow(since, until, row) && SearchWanted(SEARCHED, q, row) && ExactlyWanted(reason, outcomes, videos, row)
  {
    var search, words := SearchClause(SEARCHED, q);
    var filters, values := ExactFilters(reason, outcomes, videos);
    WindowMeans(since, until);
    BindsJoin([StartsFrom, StartsUntil], [search], [Instant(since), Instant(until)], words);
    sql := [StartsFrom, StartsUntil] + [search];
    params := [Instant(since), Instant(until)] + words;
    BindsJoin(sql, filters, params, values);
    sql := sql + filters;
    params := params + values;
    forall row: Row
      ensures EvalAll(sql, row, params + [Number(limit), Number(offset)]) ==
              Got(EvalAll(sql, row, params).value, [Number(limit), Number(offset)])
    {
      LeavesTheRest(sql, row, params, [Number(limit), Number(offset)]);
    }
    params := params + [Number(limit), Number(offset)];
  }
}
