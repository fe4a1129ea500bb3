// The WHERE clauses the Manager assembles, read as PostgreSQL reads them: three
// truth values, and %s placeholders filled from the parameter list in order.
module SqlClauses {
  import opened LikePattern
  import opened Text

  datatype Truth = True | False | Unknown

  function Is(b: bool): Truth { if b then True else False }

  function And(a: Truth, b: Truth): Truth {
    if a == False || b == False then False else if a == True && b == True then True else Unknown
  }

  function Or(a: Truth, b: Truth): Truth {
    if a == True || b == True then True else if a == False && b == False then False else Unknown
  }

  // A row of `calls`: a text column absent from the map is NULL. What
  // is_user_call(main_app) answers is given.
  datatype Row = Row(start: Option<int>, userCall: Truth, texts: map<string, string>)

  function Field(row: Row, column: string): Option<string> {
    if column in row.texts then Some(row.texts[column]) else None
  }

  datatype Value = Word(text: string) | Words(list: seq<string>) | Instant(at: int) | Number(n: int)

  // Slot is %s.
  datatype Term = Column(name: string) | Quoted(text: string) | Slot | NullIf(a: Term, b: Term) | Coalesce(a: Term, b: Term)

  // EqualAny: column = ANY(%s). Matches: column ILIKE %s. StartsFrom and
  // StartsUntil: call_start >= %s and call_start <= %s. Either: in brackets.
  datatype Clause =
    | Equal(a: Term, b: Term)
    | EqualAny(column: string)
    | IsNull(column: string)
    | Matches(column: string)
    | IsUserCall
    | StartsFrom
    | StartsUntil
    | Either(clauses: seq<Clause>)

  // Mismatch: the driver or the server refuses the statement (a parameter
  // missing or of the wrong kind, an empty pair of brackets).
  datatype Read<+T> = Mismatch | Got(value: T, rest: seq<Value>)

  function EvalTerm(t: Term, row: Row, ps: seq<Value>): Read<Option<string>> {
    match t
    case Column(name) => Got(Field(row, name), ps)
    case Quoted(text) => Got(Some(text), ps)
    case Slot => if ps != [] && ps[0].Word? then Got(Some(ps[0].text), ps[1..]) else Mismatch
    case NullIf(a, b) =>
      var x := EvalTerm(a, row, ps);
      if x.Mismatch? then Mismatch
      else
        var y := EvalTerm(b, row, x.rest);
        if y.Mismatch? then Mismatch
        else Got(if x.value.Some? && x.value == y.value then None else x.value, y.rest)
    case Coalesce(a, b) =>
      var x := EvalTerm(a, row, ps);
      if x.Mismatch? then Mismatch
      else
        var y := EvalTerm(b, row, x.rest);
        if y.Mismatch? then Mismatch else Got(if x.value.Some? then x.value else y.value, y.rest)
  }

  function EqualAnyOf(x: Option<string>, list: seq<string>): Truth {
    if list == [] then False else if x.None? then Unknown else Is(x.value in list)
  }

  function EvalClause(c: Clause, row: Row, ps: seq<Value>): Read<Truth>
    decreases c
  {
    match c
    case Equal(a, b) =>
      var x := EvalTerm(a, row, ps);
      if x.Mismatch? then Mismatch
      else
        var y := EvalTerm(b, row, x.rest);
        if y.Mismatch? then Mismatch
        else Got(if x.value.None? || y.value.None? then Unknown else Is(x.value == y.value), y.rest)
    case EqualAny(column) =>
      if ps != [] && ps[0].Words? then Got(EqualAnyOf(Field(row, column), ps[0].list), ps[1..]) else Mismatch
    case IsNull(column) => Got(Is(Field(row, column).None?), ps)
    case Matches(column) =>
      if ps == [] || !ps[0].Word? then Mismatch
      else if Field(row, column).None? then Got(Unknown, ps[1..])
      else Got(Is(Like(Field(row, column).value, ps[0].text)), ps[1..])
    case IsUserCall => Got(row.userCall, ps)
    case StartsFrom =>
      if ps == [] || !ps[0].Instant? then Mismatch
      else Got(if row.start.None? then Unknown else Is(ps[0].at <= row.start.value), ps[1..])
    case StartsUntil =>
      if ps == [] || !ps[0].Instant? then Mismatch
      else Got(if row.start.None? then Unknown else Is(row.start.value <= ps[0].at), ps[1..])
    case Either(clauses) => EvalEither(clauses, row, ps)
  }

  function EvalEither(cs: seq<Clause>, row: Row, ps: seq<Value>): Read<Truth>
    decreases cs
  {
    if cs == [] then Mismatch
    else
      var x := EvalClause(cs[0], row, ps);
      if |cs| == 1 || x.Mismatch? then x
      else
        var y := EvalEither(cs[1..], row, x.rest);
        if y.Mismatch? then Mismatch else Got(Or(x.value, y.value), y.rest)
  }

  // The clauses of a WHERE, joined by AND.
  function EvalAll(cs: seq<Clause>, row: Row, ps: seq<Value>): Read<Truth> {
    if cs == [] then Got(True, ps)
    else
      var x := EvalClause(cs[0], row, ps);
      if x.Mismatch? then Mismatch
      else
        var y := EvalAll(cs[1..], row, x.rest);
        if y.Mismatch? then Mismatch else Got(And(x.value, y.value), y.rest)
  }

  // The parameters fill the placeholders exactly, whatever the row.
  ghost predicate Binds(cs: seq<Clause>, ps: seq<Value>) {
    forall row: Row :: EvalAll(cs, row, ps).Got? && EvalAll(cs, row, ps).rest == []
  }

  // WHERE keeps a row whose condition is true: neither false nor unknown.
  predicate Keeps(cs: seq<Clause>, ps: seq<Value>, row: Row) {
    EvalAll(cs, row, ps).Got? && EvalAll(cs, row, ps).value == True
  }

  // ------------------------------------- later parameters are left untouched

  function More<T>(x: Read<T>, extra: seq<Value>): Read<T> {
    if x.Mismatch? then x else Got(x.value, x.rest + extra)
  }

  // False before Unknown before True: AND takes the lesser, OR the greater.
  function Rank(a: Truth): int { match a case False => 0 case Unknown => 1 case True => 2 }

  lemma Kleene(a: Truth, b: Truth)
    ensures Rank(And(a, b)) == if Rank(a) <= Rank(b) then Rank(a) else Rank(b)
    ensures Rank(Or(a, b)) == if Rank(a) >= Rank(b) then Rank(a) else Rank(b)
  {
  }

  // Whatever is compared with NULL is neither true nor false, but for an empty
  // list, which holds nothing.
  lemma NullIsUnknown(row: Row, column: string, word: string, at: int, list: seq<string>, rest: seq<Value>)
    ensures Field(row, column).None? ==>
      && EvalClause(Equal(Column(column), Slot), row, [Word(word)] + rest) == Got(Unknown, rest)
      && EvalClause(Matches(column), row, [Word(word)] + rest) == Got(Unknown, rest)
      && EvalClause(EqualAny(column), row, [Words(list)] + rest) == Got(if list == [] then False else Unknown, rest)
      && EvalClause(IsNull(column), row, rest) == Got(True, rest)
    ensures row.start.None? ==>
      && EvalClause(StartsFrom, row, [Instant(at)] + rest) == Got(Unknown, rest)
      && EvalClause(StartsUntil, row, [Instant(at)] + rest) == Got(Unknown, rest)
  {
    assert ([Word(word)] + rest)[1..] == rest && ([Words(list)] + rest)[1..] == rest && ([Instant(at)] + rest)[1..] == rest;
  }

  lemma {:induction false} TermFrame(t: Term, row: Row, ps: seq<Value>, extra: seq<Value>)
    requires EvalTerm(t, row, ps).Got?
    ensures EvalTerm(t, row, ps + extra) == More(EvalTerm(t, row, ps), extra)
  {
    match t
    case NullIf(a, b) =>
      TermFrame(a, row, ps, extra);
      TermFrame(b, row, EvalTerm(a, row, ps).rest, extra);
    case Coalesce(a, b) =>
      TermFrame(a, row, ps, extra);
      TermFrame(b, row, EvalTerm(a, row, ps).rest, extra);
    case Slot => assert (ps + extra)[1..] == ps[1..] + extra;
    case _ =>
  }

  lemma {:induction false} ClauseFrame(c: Clause, row: Row, ps: seq<Value>, extra: seq<Value>)
    requires EvalClause(c, row, ps).Got?
    ensures EvalClause(c, row, ps + extra) == More(EvalClause(c, row, ps), extra)
    decreases c
  {
    match c
    case Equal(a, b) =>
      TermFrame(a, row, ps, extra);
      TermFrame(b, row, EvalTerm(a, row, ps).rest, extra);
    case Either(clauses) => EitherFrame(clauses, row, ps, extra);
    case IsNull(_) =>
    case IsUserCall =>
    case _ => assert (ps + extra)[1..] == ps[1..] + extra;
  }

  lemma {:induction false} EitherFrame(cs: seq<Clause>, row: Row, ps: seq<Value>, extra: seq<Value>)
    requires EvalEither(cs, row, ps).Got?
    ensures EvalEither(cs, row, ps + extra) == More(EvalEither(cs, row, ps), extra)
    decreases cs
  {
    ClauseFrame(cs[0], row, ps, extra);
    if |cs| > 1 {
      EitherFrame(cs[1..], row, EvalClause(cs[0], row, ps).rest, extra);
    }
  }

  // Clauses put side by side read their parameters side by side.
  lemma {:induction false} AllJoin(cs: seq<Clause>, ds: seq<Clause>, row: Row, ps: seq<Value>, qs: seq<Value>)
    requires EvalAll(cs, row, ps).Got? && EvalAll(cs, row, ps).rest == []
    requires EvalAll(ds, row, qs).Got?
    ensures EvalAll(cs + ds, row, ps + qs) ==
            Got(And(EvalAll(cs, row, ps).value, EvalAll(ds, row, qs).value), EvalAll(ds, row, qs).rest)
  {
    if cs == [] {
      assert cs + ds == ds && ps + qs == qs;
    } else {
      var x := EvalClause(cs[0], row, ps);
      ClauseFrame(cs[0], row, ps, qs);
      AllJoin(cs[1..], ds, row, x.rest, qs);
      assert (cs + ds)[0] == cs[0] && (cs + ds)[1..] == cs[1..] + ds;
    }
  }

  lemma BindsJoin(cs: seq<Clause>, ds: seq<Clause>, ps: seq<Value>, qs: seq<Value>)
    requires Binds(cs, ps) && Binds(ds, qs)
    ensures Binds(cs + ds, ps + qs)
    ensures forall row: Row :: Keeps(cs + ds, ps + qs, row) <==> Keeps(cs, ps, row) && Keeps(ds, qs, row)
  {
    forall row: Row
      ensures EvalAll(cs + ds, row, ps + qs) ==
              Got(And(EvalAll(cs, row, ps).value, EvalAll(ds, row, qs).value), [])
    {
      AllJoin(cs, ds, row, ps, qs);
    }
  }

  lemma EitherOne(c: Clause, row: Row, ps: seq<Value>)
    ensures EvalEither([c], row, ps) == EvalClause(c, row, ps)
  {
    assert [c][0] == c;
  }

  lemma EitherMore(c: Clause, rest: seq<Clause>, row: Row, ps: seq<Value>)
    requires rest != [] && EvalClause(c, row, ps).Got? && EvalEither(rest, row, EvalClause(c, row, ps).rest).Got?
    ensures var x := EvalClause(c, row, ps);
            var y := EvalEither(rest, row, x.rest);
            EvalEither([c] + rest, row, ps) == Got(Or(x.value, y.value), y.rest)
  {
    var cs := [c] + rest;
    assert cs[0] == c && cs[1..] == rest;
  }

  // One clause alone.
  lemma BindsOne(c: Clause, ps: seq<Value>)
    requires forall row: Row :: EvalClause(c, row, ps).Got? && EvalClause(c, row, ps).rest == []
    ensures Binds([c], ps)
    ensures forall row: Row :: Keeps([c], ps, row) <==> EvalClause(c, row, ps).value == True
  {
    forall row: Row
      ensures EvalAll([c], row, ps) == EvalClause(c, row, ps)
    {
      assert [c][1..] == [];
    }
  }

  lemma BindsEither(cs: seq<Clause>, ps: seq<Value>)
    requires forall row: Row :: EvalEither(cs, row, ps).Got? && EvalEither(cs, row, ps).rest == []
    ensures Binds([Either(cs)], ps)
    ensures forall row: Row :: Keeps([Either(cs)], ps, row) <==> EvalEither(cs, row, ps).value == True
  {
    assert forall row: Row :: EvalClause(Either(cs), row, ps) == EvalEither(cs, row, ps);
    BindsOne(Either(cs), ps);
  }

  // What follows the WHERE (LIMIT, OFFSET) finds its own parameters untouched.
  lemma LeavesTheRest(cs: seq<Clause>, row: Row, ps: seq<Value>, extra: seq<Value>)
    requires EvalAll(cs, row, ps).Got? && EvalAll(cs, row, ps).rest == []
    ensures EvalAll(cs, row, ps + extra) == Got(EvalAll(cs, row, ps).value, extra)
  {
    AllJoin(cs, [], row, ps, extra);
    assert cs + [] == cs;
  }
}
