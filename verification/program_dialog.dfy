/** The bot's program-filter dialog: a five-state machine that asks whether
    to filter, reads a difficulty, its comparison, a number of weeks and its
    comparison, and finally asks for the programs with the two filter
    expressions `op + text`. Sending messages and fetching programs are
    effects the model records rather than performs. */
module ProgramDialog {

  import opened Wrappers
  import Text
  import Filters
  import ServerModels

  /** The states of `ProgramFilter`, in declaration order */
  datatype State = DifficultyValue | DifficultyOp | WeeksValue | WeeksOp | FinishFilter

  const Order: seq<State> := [DifficultyValue, DifficultyOp, WeeksValue, WeeksOp, FinishFilter]

  function Index(s: State): (i: nat)
    ensures i < |Order| && Order[i] == s
  {
    match s
    case DifficultyValue => 0
    case DifficultyOp => 1
    case WeeksValue => 2
    case WeeksOp => 3
    case FinishFilter => 4
  }

  /** `ProgramFilter.next()`: the state after the current one in
      declaration order; from no state (or a state of another group) the
      first one, and after the last one no state at all */
  function Next(s: Option<State>): (r: Option<State>)
    ensures s.None? ==> r == Some(Order[0])
    ensures s.Some? ==> (r.Some? <==> Index(s.value) + 1 < |Order|)
    ensures s.Some? && r.Some? ==> Index(r.value) == Index(s.value) + 1
  {
    match s
    case None => Some(Order[0])
    case Some(st) => if Index(st) + 1 < |Order| then Some(Order[Index(st) + 1]) else None
  }

  /** `next()` walks the declaration order one state at a time */
  lemma NextFollowsOrder()
    ensures Next(None) == Some(DifficultyValue)
    ensures forall i :: 0 <= i < |Order| - 1 ==> Next(Some(Order[i])) == Some(Order[i + 1])
    ensures Next(Some(FinishFilter)) == None
  {
    forall i | 0 <= i < |Order| - 1
      ensures Next(Some(Order[i])) == Some(Order[i + 1])
    {
      assert Index(Order[i]) == i;
    }
  }

  /** The user's FSM context: the current state and the stored data */
  datatype Ctx = Ctx(state: Option<State>, data: map<string, string>)

  /** No dialog in progress (`state.finish()` resets both parts) */
  const Idle := Ctx(None, map[])

  /** What a handler asks for besides the state change */
  datatype Effect =
    | Nothing
    | ShowPrograms(filters: Option<map<string, string>>)   // `get_programs(message[, data])`

  /** An update: a pressed inline button, with the prefix and fields of its
      callback data, or a typed text message */
  datatype Event = Callback(prefix: string, fields: map<string, string>) | Message(text: string)

  /** The comparisons the inline keyboards offer */
  const KeyboardOps: set<string> := {">", "=", "<"}

  function FieldOr(fields: map<string, string>, key: string, default: string): string {
    if key in fields then fields[key] else default
  }

  /** `program_filter_start`: enter the dialog */
  function Start(ctx: Ctx): (r: Ctx)
    ensures r.state == Some(Order[0]) && r.data == ctx.data
  {
    ctx.(state := Some(DifficultyValue))
  }

  /** `get_difficulty_value`: `"1"` asks for a difficulty; anything else
      shows the unfiltered programs and ends the dialog */
  function ChooseFiltering(ctx: Ctx, fields: map<string, string>): (r: (Ctx, Effect))
    requires ctx.state == Some(DifficultyValue)
    ensures FieldOr(fields, "filter", "0") == "1" ==>
      r.0.state == Some(DifficultyOp) && r.0.data == ctx.data && r.1 == Nothing
    ensures FieldOr(fields, "filter", "0") != "1" ==> r.0 == Idle && r.1 == ShowPrograms(None)
  {
    if FieldOr(fields, "filter", "0") == "1" then (ctx.(state := Next(ctx.state)), Nothing)
    else (Idle, ShowPrograms(None))
  }

  /** The typed difficulty is accepted when it reads as a number from 1 to 5 */
  predicate DifficultyAccepted(text: string) {
    match Text.ParseFloat(text)
    case None => false
    case Some(v) => 1.0 <= v <= 5.0
  }

  /** `get_difficulty_op`: store an accepted difficulty and move on;
      otherwise stay, storing nothing */
  function ReadDifficulty(ctx: Ctx, text: string): (r: (Ctx, Effect))
    requires ctx.state == Some(DifficultyOp)
    ensures r.1 == Nothing
    ensures DifficultyAccepted(text) ==>
      r.0.state == Some(WeeksValue) && r.0.data == ctx.data["difficulty" := text]
    ensures !DifficultyAccepted(text) ==> r.0 == ctx
  {
    if DifficultyAccepted(text) then (Ctx(Next(ctx.state), ctx.data["difficulty" := text]), Nothing)
    else (ctx.(state := Some(DifficultyOp)), Nothing)
  }

  /** The dialog accepts a difficulty exactly when a training with that
      difficulty satisfies the model's validators */
  lemma DifficultyAcceptedIffValid(text: string)
    ensures DifficultyAccepted(text) <==>
      Text.ParseFloat(text).Some? && ServerModels.TrainingValid(ServerModels.Training(Text.ParseFloat(text).value))
  {
  }

  datatype DialogError = MissingValue   // TypeError: `None` in a concatenation

  /** `get_weeks_value`: prefix the stored difficulty with the chosen
      comparison and ask for the weeks */
  function ChooseDifficultyOp(ctx: Ctx, fields: map<string, string>): (r: Result<(Ctx, Effect), DialogError>)
    requires ctx.state == Some(WeeksValue)
    ensures r.Ok? <==> "difficulty" in fields && "difficulty" in ctx.data
    ensures r.Ok? ==>
      && r.value.0.state == Some(WeeksOp) && r.value.1 == Nothing
      && r.value.0.data == ctx.data["difficulty" := fields["difficulty"] + ctx.data["difficulty"]]
  {
    if "difficulty" !in fields || "difficulty" !in ctx.data then Err(MissingValue)
    else Ok((Ctx(Next(ctx.state), ctx.data["difficulty" := fields["difficulty"] + ctx.data["difficulty"]]),
             Nothing))
  }

  /** The typed number of weeks is accepted when it reads as a positive
      integer */
  predicate WeeksAccepted(text: string) {
    match Text.ParseInt(text)
    case None => false
    case Some(v) => v > 0
  }

  /** Up to the column's upper bound, an accepted number of weeks is exactly
      one a training program may have; above it the dialog still accepts
      numbers the column cannot hold */
  lemma WeeksAcceptedIffValid(text: string, price: real)
    ensures Text.ParseInt(text).Some? && Text.ParseInt(text).value <= ServerModels.SmallIntMax ==>
      (WeeksAccepted(text) <==>
         ServerModels.ProgramValid(ServerModels.TrainingProgram(Text.ParseInt(text).value, price)))
    ensures Text.ParseInt(text).Some? && Text.ParseInt(text).value > ServerModels.SmallIntMax ==>
      WeeksAccepted(text) &&
      !ServerModels.ProgramValid(ServerModels.TrainingProgram(Text.ParseInt(text).value, price))
    ensures Text.ParseInt(text).None? ==> !WeeksAccepted(text)
  {
  }

  /** `get_weeks_op` with the state a rejected text leads to */
  function ReadWeeksThen(ctx: Ctx, text: string, retry: State): (r: (Ctx, Effect))
    requires ctx.state == Some(WeeksOp)
    ensures r.1 == Nothing
    ensures WeeksAccepted(text) ==>
      r.0.state == Some(FinishFilter) && r.0.data == ctx.data["weeks" := text]
    ensures !WeeksAccepted(text) ==> r.0 == ctx.(state := Some(retry))
  {
    if WeeksAccepted(text) then (Ctx(Next(ctx.state), ctx.data["weeks" := text]), Nothing)
    else (ctx.(state := Some(retry)), Nothing)
  }

  /** `get_weeks_op` as written: a rejected text goes back to the state that
      waits for the difficulty comparison button */
  function ReadWeeksAsWritten(ctx: Ctx, text: string): (r: (Ctx, Effect))
    requires ctx.state == Some(WeeksOp)
    ensures !WeeksAccepted(text) ==> r.0.state == Some(WeeksValue) && r.0.data == ctx.data
  {
    ReadWeeksThen(ctx, text, WeeksValue)
  }

  /** `get_weeks_op` corrected: a rejected text leaves the dialog waiting for
      the weeks, as `get_difficulty_op` does for the difficulty */
  function ReadWeeks(ctx: Ctx, text: string): (r: (Ctx, Effect))
    requires ctx.state == Some(WeeksOp)
    ensures !WeeksAccepted(text) ==> r.0 == ctx
  {
    ReadWeeksThen(ctx, text, WeeksOp)
  }

  /** `finish_program_filter`: prefix the weeks with the chosen comparison,
      show the filtered programs and end the dialog */
  function Finish(ctx: Ctx, fields: map<string, string>): (r: Result<(Ctx, Effect), DialogError>)
    requires ctx.state == Some(FinishFilter)
    ensures r.Ok? <==> "weeks" in fields && "weeks" in ctx.data
    ensures r.Ok? ==>
      r.value.0 == Idle && r.value.1 == ShowPrograms(Some(ctx.data["weeks" := fields["weeks"] + ctx.data["weeks"]]))
  {
    if "weeks" !in fields || "weeks" !in ctx.data then Err(MissingValue)
    else Ok((Idle, ShowPrograms(Some(ctx.data["weeks" := fields["weeks"] + ctx.data["weeks"]]))))
  }

  /** The handler registrations: each handler runs only in its state and for
      its kind of update; any other update is ignored, and a handler that
      raises leaves the context as it was. `asWritten` selects the weeks
      handler. Programs are shown only as the dialog ends, text typed
      outside the two text states is ignored, and only the difficulty and
      the weeks are ever stored. */
  function Route(ctx: Ctx, ev: Event, asWritten: bool): (r: (Ctx, Effect))
    ensures r.1.ShowPrograms? ==> r.0 == Idle
    ensures ev.Message? && ctx.state != Some(DifficultyOp) && ctx.state != Some(WeeksOp) ==> r == (ctx, Nothing)
    ensures ev.Callback? && ev.prefix !in CallbackPrefixes ==> r == (ctx, Nothing)
    ensures ctx.data.Keys <= DataKeys ==> r.0.data.Keys <= DataKeys
  {
    match (ctx.state, ev)
    case (None, Callback("filter_programs", _)) => (Start(ctx), Nothing)
    case (Some(DifficultyValue), Callback("program_filter", f)) => ChooseFiltering(ctx, f)
    case (Some(DifficultyOp), Message(t)) => ReadDifficulty(ctx, t)
    case (Some(WeeksValue), Callback("difficulty_filter", f)) =>
      (match ChooseDifficultyOp(ctx, f) case Ok(r) => r case Err(_) => (ctx, Nothing))
    case (Some(WeeksOp), Message(t)) => if asWritten then ReadWeeksAsWritten(ctx, t) else ReadWeeks(ctx, t)
    case (Some(FinishFilter), Callback("week_filter", f)) =>
      (match Finish(ctx, f) case Ok(r) => r case Err(_) => (ctx, Nothing))
    case _ => (ctx, Nothing)
  }

  /** The callback prefixes the dialog registers handlers for */
  const CallbackPrefixes: set<string> := {"filter_programs", "program_filter", "difficulty_filter", "week_filter"}

  /** The keys the dialog stores */
  const DataKeys: set<string> := {"difficulty", "weeks"}

  /** A run of updates: the final context and the effects in order */
  function Run(ctx: Ctx, events: seq<Event>, asWritten: bool): (r: (Ctx, seq<Effect>))
    ensures |r.1| == |events|
    decreases |events|
  {
    if events == [] then (ctx, [])
    else
      var (next, e) := Route(ctx, events[0], asWritten);
      var (last, es) := Run(next, events[1..], asWritten);
      (last, [e] + es)
  }

  /** One update, then the rest */
  lemma RunStep(ctx: Ctx, events: seq<Event>, asWritten: bool)
    requires events != []
    ensures var (next, e) := Route(ctx, events[0], asWritten);
      Run(ctx, events, asWritten) == (Run(next, events[1..], asWritten).0, [e] + Run(next, events[1..], asWritten).1)
  {
  }

  /** A run over `a + b` is the run over `a` followed by the run over `b`
      from the context it ended in, with the effects concatenated */
  lemma {:induction false} RunConcat(ctx: Ctx, a: seq<Event>, b: seq<Event>, asWritten: bool)
    ensures var (mid, ea) := Run(ctx, a, asWritten);
      Run(ctx, a + b, asWritten) == (Run(mid, b, asWritten).0, ea + Run(mid, b, asWritten).1)
    decreases |a|
  {
    if a == [] {
      assert a + b == b;
      assert [] + Run(ctx, b, asWritten).1 == Run(ctx, b, asWritten).1;
    } else {
      var (next, e) := Route(ctx, a[0], asWritten);
      assert (a + b)[0] == a[0] && (a + b)[1..] == a[1..] + b;
      RunConcat(next, a[1..], b, asWritten);
      var (mid, ea) := Run(next, a[1..], asWritten);
      var eb := Run(mid, b, asWritten).1;
      assert [e] + (ea + eb) == ([e] + ea) + eb;
    }
  }

  /** Data stored before a run keeps only the dialog's keys */
  lemma {:induction false} RunKeepsDataKeys(ctx: Ctx, events: seq<Event>, asWritten: bool)
    requires ctx.data.Keys <= DataKeys
    ensures Run(ctx, events, asWritten).0.data.Keys <= DataKeys
    decreases |events|
  {
    if events != [] {
      RunKeepsDataKeys(Route(ctx, events[0], asWritten).0, events[1..], asWritten);
    }
  }

  /** The updates of a user who asks for filtering, types difficulty `d`,
      presses `dop`, types weeks `n` and presses `wop` */
  function FilterDialog(d: string, dop: string, n: string, wop: string): seq<Event> {
    [Callback("filter_programs", map[]),
     Callback("program_filter", map["filter" := "1"]),
     Message(d),
     Callback("difficulty_filter", map["difficulty" := dop]),
     Message(n),
     Callback("week_filter", map["weeks" := wop])]
  }

  /** The filters the complete dialog asks for */
  function DialogQuery(d: string, dop: string, n: string, wop: string): map<string, string> {
    map["difficulty" := dop + d, "weeks" := wop + n]
  }

  /** The five contexts the complete dialog passes through */
  function DialogContexts(d: string, dop: string, n: string): seq<Ctx> {
    [Idle,
     Ctx(Some(DifficultyValue), map[]),
     Ctx(Some(DifficultyOp), map[]),
     Ctx(Some(WeeksValue), map["difficulty" := d]),
     Ctx(Some(WeeksOp), map["difficulty" := dop + d]),
     Ctx(Some(FinishFilter), map["difficulty" := dop + d, "weeks" := n])]
  }

  /** Each update of the complete dialog moves it one context on */
  lemma DialogRoutes(d: string, dop: string, n: string, wop: string, asWritten: bool)
    requires DifficultyAccepted(d) && WeeksAccepted(n)
    ensures forall i :: 0 <= i < 5 ==>
      Route(DialogContexts(d, dop, n)[i], FilterDialog(d, dop, n, wop)[i], asWritten)
        == (DialogContexts(d, dop, n)[i + 1], Nothing)
    ensures Route(DialogContexts(d, dop, n)[5], FilterDialog(d, dop, n, wop)[5], asWritten)
      == (Idle, ShowPrograms(Some(DialogQuery(d, dop, n, wop))))
  {
    var cs := DialogContexts(d, dop, n);
    assert cs[3].data["difficulty" := dop + cs[3].data["difficulty"]] == cs[4].data;
    assert cs[5].data["weeks" := wop + cs[5].data["weeks"]] == DialogQuery(d, dop, n, wop);
  }

  /** The complete dialog ends idle, having asked for the programs once,
      with the two filter expressions `dop + d` and `wop + n`, with the
      weeks handler as written and corrected alike */
  lemma FilterDialogQuery(d: string, dop: string, n: string, wop: string, asWritten: bool)
    requires DifficultyAccepted(d) && WeeksAccepted(n)
    ensures Run(Idle, FilterDialog(d, dop, n, wop), asWritten)
      == (Idle, [Nothing, Nothing, Nothing, Nothing, Nothing, ShowPrograms(Some(DialogQuery(d, dop, n, wop)))])
  {
    var evs := FilterDialog(d, dop, n, wop);
    var q := DialogQuery(d, dop, n, wop);
    var cs := DialogContexts(d, dop, n);
    var c1, c2, c3, c4, c5 := cs[1], cs[2], cs[3], cs[4], cs[5];
    var e := ShowPrograms(Some(q));
    DialogRoutes(d, dop, n, wop, asWritten);
    assert Route(c5, evs[5], asWritten) == (Idle, e);
    assert Route(c4, evs[4], asWritten) == (c5, Nothing);
    assert Route(c3, evs[3], asWritten) == (c4, Nothing);
    assert Route(c2, evs[2], asWritten) == (c3, Nothing);
    assert Route(c1, evs[1], asWritten) == (c2, Nothing);
    var N := Nothing;
    RunStep(c5, evs[5..], asWritten);
    assert evs[5..][0] == evs[5] && evs[5..][1..] == [];
    assert Run(Idle, [], asWritten) == (Idle, []);
    assert [e] + [] == [e];
    assert Run(c5, evs[5..], asWritten) == (Idle, [e]);
    RunStep(c4, evs[4..], asWritten);
    assert evs[4..][0] == evs[4] && evs[4..][1..] == evs[5..];
    assert Run(c4, evs[4..], asWritten) == (Idle, [N] + [e]);
    RunStep(c3, evs[3..], asWritten);
    assert evs[3..][0] == evs[3] && evs[3..][1..] == evs[4..];
    assert Run(c3, evs[3..], asWritten) == (Idle, [N] + ([N] + [e]));
    RunStep(c2, evs[2..], asWritten);
    assert evs[2..][0] == evs[2] && evs[2..][1..] == evs[3..];
    assert Run(c2, evs[2..], asWritten) == (Idle, [N] + ([N] + ([N] + [e])));
    RunStep(c1, evs[1..], asWritten);
    assert evs[1..][0] == evs[1] && evs[1..][1..] == evs[2..];
    assert Run(c1, evs[1..], asWritten) == (Idle, [N] + ([N] + ([N] + ([N] + [e]))));
    RunStep(Idle, evs, asWritten);
    assert [N] + ([N] + ([N] + ([N] + ([N] + [e])))) == [N, N, N, N, N, e];
    assert Route(Idle, evs[0], asWritten) == (c1, Nothing);
  }

  /** Whether a predicate returned by the query filter keeps `x` */
  predicate Keeps(p: Filters.Pred, x: Filters.Operand) {
    Filters.Applicable(p, x) && Filters.Apply(p, x)
  }

  /** The reading of a keyboard comparison `o` between `x` and `v` */
  predicate Compares(o: string, x: Filters.Operand, v: Filters.Operand)
    requires Filters.ClassOf(x) == Filters.ClassOf(v)
  {
    if o == ">" then Filters.Less(v, x) else if o == "<" then Filters.Less(x, v) else x == v
  }

  /** A filter text that reads as the predicate bound to a keyboard
      comparison keeps exactly the `x` that compare so with its value */
  lemma KeepsBoundComparison(s: string, c: Filters.DataClass, o: string, v: Filters.Operand, x: Filters.Operand)
    requires o in KeyboardOps && Filters.ClassOf(x) == Filters.ClassOf(v)
    requires Filters.Filter(Some(s), c) == Ok(Filters.Bound(Filters.FilterExp(Filters.OpOfToken(o)), v))
    ensures Keeps(Filters.Filter(Some(s), c).value, x) <==> Compares(o, x, v)
  {
    Filters.OperatorSemantics(Filters.OpOfToken(o), v, x);
  }

  /** A keyboard comparison followed by a digit string, read as an integer
      filter, keeps exactly the `x` that compare so with the number */
  lemma KeyboardIntFilter(o: string, n: string, x: int)
    requires o in KeyboardOps && |n| > 0 && Text.AllDigits(n)
    ensures Filters.Filter(Some(o + n), Filters.IntClass).Ok?
    ensures Keeps(Filters.Filter(Some(o + n), Filters.IntClass).value, Filters.IntVal(x))
      <==> Compares(o, Filters.IntVal(x), Filters.IntVal(Text.DigitsValue(n)))
  {
    var v := Filters.IntVal(Text.DigitsValue(n));
    Filters.FilterOpThenInt(o, n);
    if o == ">" {
      KeepsBoundComparison(">" + n, Filters.IntClass, ">", v, Filters.IntVal(x));
    } else if o == "<" {
      KeepsBoundComparison("<" + n, Filters.IntClass, "<", v, Filters.IntVal(x));
    } else {
      KeepsBoundComparison("=" + n, Filters.IntClass, "=", v, Filters.IntVal(x));
    }
  }

  /** A keyboard comparison followed by a plain decimal, read as a float
      filter, keeps exactly the `x` that compare so with the number */
  lemma KeyboardFloatFilter(o: string, d: string, x: real)
    requires o in KeyboardOps && Text.PlainDecimal(d)
    ensures Filters.Filter(Some(o + d), Filters.FloatClass).Ok?
    ensures Keeps(Filters.Filter(Some(o + d), Filters.FloatClass).value, Filters.FloatVal(x))
      <==> Compares(o, Filters.FloatVal(x), Filters.FloatVal(Text.PlainDecimalValue(d)))
  {
    var v := Filters.FloatVal(Text.PlainDecimalValue(d));
    Filters.FilterOpThenDecimal(o, d);
    if o == ">" {
      KeepsBoundComparison(">" + d, Filters.FloatClass, ">", v, Filters.FloatVal(x));
    } else if o == "<" {
      KeepsBoundComparison("<" + d, Filters.FloatClass, "<", v, Filters.FloatVal(x));
    } else {
      KeepsBoundComparison("=" + d, Filters.FloatClass, "=", v, Filters.FloatVal(x));
    }
  }

  /** End to end: the weeks expression the dialog asks for, for a typed digit
      string `n` and a keyboard comparison `wop`, read by the server's query
      filter as an integer filter, keeps exactly the `x` with `x wop n` */
  lemma WeeksFilterEndToEnd(d: string, dop: string, n: string, wop: string, x: int, asWritten: bool)
    requires DifficultyAccepted(d) && |n| > 0 && Text.AllDigits(n) && Text.DigitsValue(n) > 0
    requires wop in KeyboardOps
    ensures Run(Idle, FilterDialog(d, dop, n, wop), asWritten).1[5] == ShowPrograms(Some(DialogQuery(d, dop, n, wop)))
    ensures DialogQuery(d, dop, n, wop)["weeks"] == wop + n
    ensures Filters.Filter(Some(wop + n), Filters.IntClass).Ok?
    ensures Keeps(Filters.Filter(Some(wop + n), Filters.IntClass).value, Filters.IntVal(x))
      <==> Compares(wop, Filters.IntVal(x), Filters.IntVal(Text.DigitsValue(n)))
  {
    assert WeeksAccepted(n) by {
      Text.ParseIntOfDigits(n);
    }
    FilterDialogQuery(d, dop, n, wop, asWritten);
    KeyboardIntFilter(wop, n, x);
  }

  /** End to end: the difficulty expression for a typed plain decimal `d` in
      the accepted range, read as a float filter, keeps exactly the `x` with
      `x dop d` */
  lemma DifficultyFilterEndToEnd(d: string, dop: string, n: string, wop: string, x: real, asWritten: bool)
    requires Text.PlainDecimal(d) && 1.0 <= Text.PlainDecimalValue(d) <= 5.0 && WeeksAccepted(n)
    requires dop in KeyboardOps
    ensures Run(Idle, FilterDialog(d, dop, n, wop), asWritten).1[5] == ShowPrograms(Some(DialogQuery(d, dop, n, wop)))
    ensures DialogQuery(d, dop, n, wop)["difficulty"] == dop + d
    ensures Filters.Filter(Some(dop + d), Filters.FloatClass).Ok?
    ensures Keeps(Filters.Filter(Some(dop + d), Filters.FloatClass).value, Filters.FloatVal(x))
      <==> Compares(dop, Filters.FloatVal(x), Filters.FloatVal(Text.PlainDecimalValue(d)))
  {
    assert DifficultyAccepted(d) by {
      Text.ParseFloatOfPlainDecimal(d);
    }
    FilterDialogQuery(d, dop, n, wop, asWritten);
    KeyboardFloatFilter(dop, d, x);
  }

  /** As written, a rejected number of weeks leaves the dialog in a state with
      no message handler: the corrected number the user types next is
      ignored and nothing is stored */
  lemma RetypedWeeksIgnoredAsWritten(ctx: Ctx)
    requires ctx.state == Some(WeeksOp) && "weeks" !in ctx.data
    ensures var r := Run(ctx, [Message("0"), Message("4")], true);
      r.0.state == Some(WeeksValue) && "weeks" !in r.0.data
  {
    assert Text.ParseInt("0") == Some(0);
  }

  /** As written, the dialog stuck in `weeks_value` ignores the weeks
      buttons, and moves on only when a difficulty comparison button is
      pressed again, which prefixes the stored difficulty a second time */
  lemma StuckDialogAsWritten(ctx: Ctx, dop: string, wop: string)
    requires ctx.state == Some(WeeksValue) && "difficulty" in ctx.data
    ensures Route(ctx, Callback("week_filter", map["weeks" := wop]), true) == (ctx, Nothing)
    ensures Route(ctx, Callback("difficulty_filter", map["difficulty" := dop]), true)
      == (Ctx(Some(WeeksOp), ctx.data["difficulty" := dop + ctx.data["difficulty"]]), Nothing)
  {
  }

  /** Corrected, the number typed after a rejected one is read */
  lemma RetypedWeeksAccepted(ctx: Ctx)
    requires ctx.state == Some(WeeksOp)
    ensures var r := Run(ctx, [Message("0"), Message("4")], false);
      r.0.state == Some(FinishFilter) && r.0.data == ctx.data["weeks" := "4"]
  {
    assert Text.ParseInt("0") == Some(0);
    assert Text.ParseInt("4") == Some(4);
  }
}
