/**
 The fan-in counting protocol of rdma_pacer: senders report applications that join and leave
 (flow_handler in pacer.c), the receiver counts them and broadcasts the counts (server_loop in
 monitor.c), and every sender keeps the last counts it has read (monitor_latency in monitor.c).
 A channel is a lossless queue.
 */
module FanIn {
  import opened Arith
  import opened Options
  import opened Text
  import opened Limits

  const U16 := 65536
  /** Bytes of a message buffer, the terminating zero included. */
  const BUF_SIZE := 16

  datatype Counts = Counts(big: nat, small: nat)

  // ----- messages -----

  /** The report that flow_handler sends for an application's request; None where it sends nothing. */
  function Report(request: string): Option<string> {
    if request == "app_bw" || request == "app_tput" then Some("big_inc")
    else if request == "app_lat" then Some("small_inc")
    else if request == "exit_app_bw" || request == "exit_app_tput" then Some("big_dec")
    else if request == "exit_app_lat" then Some("small_dec")
    else None
  }

  /** The messages of applications that flow_handler looks into; a strange one among them makes it exit. */
  predicate IsAppMessage(request: string) {
    (|request| >= 8 && request[..8] == "exit_app") || (|request| >= 4 && request[..4] == "app_")
  }

  /** What a report adds to the count of big (`true`) or of small (`false`) applications. */
  function Delta(m: string, big: bool): int {
    if m == (if big then "big_inc" else "small_inc") then 1
    else if m == (if big then "big_dec" else "small_dec") then -1
    else 0
  }

  predicate IsReport(m: string) {
    m == "big_inc" || m == "small_inc" || m == "big_dec" || m == "small_dec"
  }

  /** The receiver's counters after a report; they are unsigned 16-bit ones. */
  function Count(c: Counts, m: string): Counts {
    Counts((c.big + Delta(m, true)) % U16, (c.small + Delta(m, false)) % U16)
  }

  /** `INFO:%04hu:%04hu`. */
  function InfoText(c: Counts): string {
    "INFO:" + (Print(c.big, 10, 4) + (":" + Print(c.small, 10, 4)))
  }

  /** What `%hu` makes of a number: strtoul saturates at 64 bits, and the low 16 bits are kept. */
  function Short(n: nat): (h: nat)
    ensures h < U16
  {
    if n < TWO64 then n % U16 else U16 - 1
  }

  /**
   The prefix test and the `INFO:%hu:%hu` scan on top of what was known before; None where the source
   exits. A scan that fails on the way keeps what it has not come to.
   */
  function ParseInfo(s: string, before: Counts): Option<Counts> {
    if |s| >= 5 && s[..5] == "INFO:" then Some(ParseCounts(s[5..], before)) else None
  }

  function ParseCounts(s: string, before: Counts): Counts {
    match ScanNumber(s, 10, |s|)
    case None => before
    case Some((big, rest)) =>
      if rest == "" || rest[0] != ':' then before.(big := Short(big))
      else ParseSmall(rest[1..], before.(big := Short(big)))
  }

  function ParseSmall(s: string, before: Counts): Counts {
    match ScanNumber(s, 10, |s|)
    case None => before
    case Some((small, _)) => before.(small := Short(small))
  }

  predicate IsCounts(c: Counts) {
    c.big < U16 && c.small < U16
  }

  /** A sender reads back exactly the counts that were broadcast, whatever it knew before. */
  lemma InfoRoundTrip(c: Counts, before: Counts)
    requires IsCounts(c)
    ensures ParseInfo(InfoText(c), before) == Some(c)
  {
    var text := Print(c.big, 10, 4) + (":" + Print(c.small, 10, 4));
    assert InfoText(c)[..5] == "INFO:" && InfoText(c)[5..] == text;
    CountsRoundTrip(c, before);
  }

  lemma CountsRoundTrip(c: Counts, before: Counts)
    requires IsCounts(c)
    ensures ParseCounts(Print(c.big, 10, 4) + (":" + Print(c.small, 10, 4)), before) == c
  {
    var b, t := Print(c.big, 10, 4), Print(c.small, 10, 4);
    var tail := ":" + t;
    ScanPrinted(c.big, 10, 4, tail, |b + tail|);
    SmallRoundTrip(c.small, t, before.(big := c.big));
    CountsScanned(b + tail, c, t, before);
  }

  lemma CountsScanned(s: string, c: Counts, t: string, before: Counts)
    requires IsCounts(c) && ScanNumber(s, 10, |s|) == Some((c.big, ":" + t))
    requires ParseSmall(t, before.(big := c.big)) == before.(big := c.big, small := c.small)
    ensures ParseCounts(s, before) == c
  {
    assert (":" + t)[0] == ':' && (":" + t)[1..] == t;
  }

  lemma SmallRoundTrip(small: nat, t: string, before: Counts)
    requires small < U16 && t == Print(small, 10, 4)
    ensures ParseSmall(t, before) == before.(small := small)
  {
    ScanPrinted(small, 10, 4, "", |t|);
    assert t + "" == t;
  }

  /** The broadcast and its terminating zero fit the buffer unless both counts have five digits. */
  lemma InfoFits(c: Counts)
    requires IsCounts(c)
    ensures |InfoText(c)| + 1 <= BUF_SIZE <==> c.big < 10000 || c.small < 10000
  {
    FiveDigits(c.big);
    FiveDigits(c.small);
  }

  /** Where the counts stand in the broadcast: the big one first, then a colon, then the small one. */
  lemma InfoPlaces(c: Counts)
    requires IsCounts(c)
    ensures var text, n := InfoText(c), if c.big < 10000 then 4 else 5;
            && |text| == 6 + n + (if c.small < 10000 then 4 else 5)
            && text[..5] == "INFO:" && Value(text[5..5 + n], 10) == c.big
            && text[5 + n] == ':' && Value(text[6 + n..], 10) == c.small
  {
    var b, t := Print(c.big, 10, 4), Print(c.small, 10, 4);
    FiveDigits(c.big);
    FiveDigits(c.small);
    PrintValue(c.big, 10, 4);
    PrintValue(c.small, 10, 4);
    var text := InfoText(c);
    assert text[5..5 + |b|] == b && text[6 + |b|..] == t;
  }

  lemma FiveDigits(n: nat)
    requires n < U16
    ensures |Print(n, 10, 4)| == if n < 10000 then 4 else 5
  {
    PrintValue(n, 10, 4);
    DigitsLength(n, 10, 4);
    DigitsLength(n, 10, 5);
    assert Power(10, 4) == 10000 && Power(10, 5) == 100000;
  }

  // ----- the protocol -----

  /** A sender's active applications, its two channels to and from the receiver, and its view. */
  datatype Sender = Sender(big: int, small: int, up: seq<string>, down: seq<string>, view: Counts)

  /** The senders, the receiver's counters, and every value those counters have had. */
  datatype State = State(senders: seq<Sender>, server: Counts, history: seq<Counts>)

  datatype Event =
    | Request(sender: nat, text: string)
    | Serve(sender: nat)
    | Receive(sender: nat)

  function Init(n: nat): State {
    State(seq(n, _ => Sender(0, 0, [], [], Counts(0, 0))), Counts(0, 0), [Counts(0, 0)])
  }

  function Broadcast(senders: seq<Sender>, text: string): (r: seq<Sender>)
    ensures |r| == |senders|
  {
    seq(|senders|, j requires 0 <= j < |senders| => senders[j].(down := senders[j].down + [text]))
  }

  /** A sender that reads its next broadcast. */
  function Learn(p: Sender): Sender {
    if p.down == [] then p
    else
      match ParseInfo(p.down[0], p.view)
      case None => p
      case Some(c) => p.(view := c, down := p.down[1..])
  }

  /** A sender that has reported what an application asked for. */
  function Tell(p: Sender, m: string): Sender {
    p.(big := p.big + Delta(m, true), small := p.small + Delta(m, false), up := p.up + [m])
  }

  function StepRequest(s: State, i: nat, text: string): State
    requires i < |s.senders|
  {
    match Report(text)
    case None => s
    case Some(m) => s.(senders := s.senders[i := Tell(s.senders[i], m)])
  }

  /** The receiver counts the report at the head of a channel and broadcasts. */
  function StepServe(s: State, i: nat): State
    requires i < |s.senders|
  {
    var me := s.senders[i];
    if me.up == [] then s
    else
      var c := Count(s.server, me.up[0]);
      State(Broadcast(s.senders[i := me.(up := me.up[1..])], InfoText(c)), c, s.history + [c])
  }

  function StepReceive(s: State, i: nat): State
    requires i < |s.senders|
  {
    s.(senders := s.senders[i := Learn(s.senders[i])])
  }

  /** One step; an event that is not possible in a state leaves it alone. */
  function Step(s: State, e: Event): State {
    if e.sender >= |s.senders| then s
    else
      match e
      case Request(i, text) => StepRequest(s, i, text)
      case Serve(i) => StepServe(s, i)
      case Receive(i) => StepReceive(s, i)
  }

  function Run(n: nat, events: seq<Event>): State
    decreases |events|
  {
    if events == [] then Init(n) else Step(Run(n, events[..|events| - 1]), events[|events| - 1])
  }

  // ----- conservation -----

  /** Net effect of undelivered reports. */
  function Net(up: seq<string>, big: bool): int {
    if up == [] then 0 else Delta(up[0], big) + Net(up[1..], big)
  }

  lemma {:induction false} NetConcat(a: seq<string>, b: seq<string>, big: bool)
    ensures Net(a + b, big) == Net(a, big) + Net(b, big)
  {
    if a == [] {
      assert a + b == b;
    } else {
      assert (a + b)[1..] == a[1..] + b;
      NetConcat(a[1..], b, big);
    }
  }

  function Active(p: Sender, big: bool): int {
    if big then p.big else p.small
  }

  /** The part of a sender's active applications that the receiver has heard of. */
  function Delivered(p: Sender, big: bool): int {
    Active(p, big) - Net(p.up, big)
  }

  function Of(c: Counts, big: bool): nat {
    if big then c.big else c.small
  }

  function SumActive(ps: seq<Sender>, big: bool): int {
    if ps == [] then 0 else Active(ps[0], big) + SumActive(ps[1..], big)
  }

  function SumNet(ps: seq<Sender>, big: bool): int {
    if ps == [] then 0 else Net(ps[0].up, big) + SumNet(ps[1..], big)
  }

  function SumDelivered(ps: seq<Sender>, big: bool): int {
    if ps == [] then 0 else Delivered(ps[0], big) + SumDelivered(ps[1..], big)
  }

  lemma {:induction false} SumsAgree(ps: seq<Sender>, big: bool)
    ensures SumDelivered(ps, big) == SumActive(ps, big) - SumNet(ps, big)
  {
    if ps != [] { SumsAgree(ps[1..], big); }
  }

  lemma {:induction false} SumDeliveredUpdate(ps: seq<Sender>, i: nat, p: Sender, big: bool)
    requires i < |ps|
    ensures SumDelivered(ps[i := p], big) == SumDelivered(ps, big) - Delivered(ps[i], big) + Delivered(p, big)
  {
    if i == 0 {
      assert ps[0 := p][1..] == ps[1..];
    } else {
      assert ps[i := p][1..] == ps[1..][i - 1 := p];
      SumDeliveredUpdate(ps[1..], i - 1, p, big);
    }
  }

  lemma {:induction false} SumSame(ps: seq<Sender>, qs: seq<Sender>, big: bool)
    requires |ps| == |qs|
    requires forall j :: 0 <= j < |ps| ==> Delivered(ps[j], big) == Delivered(qs[j], big)
    ensures SumDelivered(ps, big) == SumDelivered(qs, big)
  {
    if ps != [] { SumSame(ps[1..], qs[1..], big); }
  }

  lemma {:induction false} SumInit(n: nat, big: bool)
    ensures SumDelivered(Init(n).senders, big) == 0
  {
    if n > 0 {
      SumInit(n - 1, big);
      assert Init(n).senders[1..] == Init(n - 1).senders;
    }
  }

  lemma TellDelivered(p: Sender, m: string, big: bool)
    ensures Delivered(Tell(p, m), big) == Delivered(p, big)
    ensures Net(Tell(p, m).up, big) == Net(p.up, big) + Delta(m, big)
  {
    NetConcat(p.up, [m], big);
    assert Net([m], big) == Delta(m, big) + Net([], big);
  }

  /** How one step moves the sum of delivered applications: only serving does, by the report served. */
  lemma StepDelivered(s: State, e: Event, big: bool)
    ensures SumDelivered(Step(s, e).senders, big) - SumDelivered(s.senders, big)
            == if Serves(s, e) then Delta(s.senders[e.sender].up[0], big) else 0
  {
    if e.sender < |s.senders| {
      var i, me := e.sender, s.senders[e.sender];
      match e
      case Request(_, text) =>
        if Report(text).Some? {
          var m := Report(text).value;
          TellDelivered(me, m, big);
          SumDeliveredUpdate(s.senders, i, Tell(me, m), big);
        }
      case Serve(_) =>
        if me.up != [] {
          var popped := s.senders[i := me.(up := me.up[1..])];
          SumDeliveredUpdate(s.senders, i, popped[i], big);
          SumSame(popped, StepServe(s, i).senders, big);
        }
      case Receive(_) =>
        SumDeliveredUpdate(s.senders, i, Learn(me), big);
    }
  }

  /** The report that a step serves, if it serves one. */
  predicate Serves(s: State, e: Event) {
    e.Serve? && e.sender < |s.senders| && s.senders[e.sender].up != []
  }

  lemma StepServer(s: State, e: Event, big: bool)
    ensures Of(Step(s, e).server, big)
            == if Serves(s, e) then (Of(s.server, big) + Delta(s.senders[e.sender].up[0], big)) % U16
               else Of(s.server, big)
  {
  }

  lemma SameResidue(x: int, y: int, d: int)
    requires (x - y) % U16 == 0
    ensures ((x + d) % U16 - (y + d)) % U16 == 0
  {
    var q, r := (x - y) / U16, (x + d) / U16;
    DivBlock(x - y, U16);
    DivBlock(x + d, U16);
    DivMod((x + d) % U16 - (y + d), U16, q - r, 0);
  }

  ghost predicate Congruent(s: State, big: bool) {
    (Of(s.server, big) - SumDelivered(s.senders, big)) % U16 == 0
  }

  lemma StepCongruent(s: State, e: Event, big: bool)
    requires Congruent(s, big)
    ensures Congruent(Step(s, e), big)
  {
    StepDelivered(s, e, big);
    StepServer(s, e, big);
    if Serves(s, e) {
      SameResidue(Of(s.server, big), SumDelivered(s.senders, big), Delta(s.senders[e.sender].up[0], big));
    }
  }

  lemma {:induction false} RunCongruent(n: nat, events: seq<Event>, big: bool)
    ensures Congruent(Run(n, events), big)
    decreases |events|
  {
    if events == [] {
      SumInit(n, big);
    } else {
      var m := |events| - 1;
      RunCongruent(n, events[..m], big);
      StepCongruent(Run(n, events[..m]), events[m], big);
    }
  }

  /**
   Conservation, over every run and with no assumption on the applications: modulo 2^16, the
   receiver's count plus the undelivered reports is the total of active applications.
   */
  lemma Conservation(n: nat, events: seq<Event>, big: bool)
    ensures var s := Run(n, events);
            (Of(s.server, big) + SumNet(s.senders, big) - SumActive(s.senders, big)) % U16 == 0
  {
    RunCongruent(n, events, big);
    SumsAgree(Run(n, events).senders, big);
  }

  /** Without discipline the counters do wrap: one departure that was never announced reads as 65535. */
  lemma WrapsBelowZero()
    ensures Run(1, [Request(0, "exit_app_bw"), Serve(0)]).server.big == 65535
  {
    var exit := Request(0, "exit_app_bw");
    RunTwo(1, exit, Serve(0));
    var s := Step(Init(1), exit);
    UnannouncedExit(s);
    StepServer(s, Serve(0), true);
  }

  lemma RunTwo(n: nat, d: Event, e: Event)
    ensures Run(n, [d, e]) == Step(Step(Init(n), d), e)
  {
    assert [d, e][..1] == [d] && [d][..0] == [];
    assert Run(n, [d]) == Step(Run(n, []), d);
  }

  lemma UnannouncedExit(s: State)
    requires s == Step(Init(1), Request(0, "exit_app_bw"))
    ensures |s.senders| == 1 && s.senders[0].up == ["big_dec"] && s.server == Counts(0, 0)
  {
    assert Report("exit_app_bw") == Some("big_dec");
  }

  // ----- views -----

  /** Sender views lag behind the receiver by exactly the broadcasts that are still on their way. */
  ghost predicate ViewsLag(s: State) {
    && |s.history| >= 1 && s.history[|s.history| - 1] == s.server && s.history[0] == Counts(0, 0)
    && (forall h :: h in s.history ==> IsCounts(h))
    && AllLag(s.senders, s.history)
  }

  ghost predicate AllLag(ps: seq<Sender>, history: seq<Counts>) {
    forall j :: 0 <= j < |ps| ==> SenderLags(ps[j], history)
  }

  lemma UpdateLags(ps: seq<Sender>, i: nat, p: Sender, history: seq<Counts>)
    requires AllLag(ps, history) && i < |ps| && SenderLags(p, history)
    ensures AllLag(ps[i := p], history)
  {
  }

  /** The view, then what is on its way, spelled by `text`, are the end of the history. */
  ghost predicate ViewLags(view: Counts, down: seq<string>, history: seq<Counts>, text: Counts -> string) {
    && |down| < |history|
    && view == history[|history| - 1 - |down|]
    && forall k :: 0 <= k < |down| ==> down[k] == text(history[|history| - |down| + k])
  }

  lemma BroadcastLags(view: Counts, down: seq<string>, history: seq<Counts>, text: Counts -> string,
                      c: Counts, t: string)
    requires ViewLags(view, down, history, text) && t == text(c)
    ensures ViewLags(view, down + [t], history + [c], text)
  {
  }

  lemma PopLags(view: Counts, down: seq<string>, history: seq<Counts>, text: Counts -> string)
    requires ViewLags(view, down, history, text) && down != []
    ensures down[0] == text(history[|history| - |down|])
    ensures ViewLags(history[|history| - |down|], down[1..], history, text)
  {
  }

  ghost predicate SenderLags(p: Sender, history: seq<Counts>) {
    ViewLags(p.view, p.down, history, InfoText)
  }

  lemma ServeViews(s: State, i: nat)
    requires ViewsLag(s) && i < |s.senders| && s.senders[i].up != []
    ensures ViewsLag(StepServe(s, i))
  {
    var t := StepServe(s, i);
    forall j | 0 <= j < |t.senders| ensures SenderLags(t.senders[j], t.history) {
      var p := s.senders[j];
      assert SenderLags(p, s.history);
      BroadcastLags(p.view, p.down, s.history, InfoText, t.server, InfoText(t.server));
    }
  }

  lemma LearnLags(p: Sender, history: seq<Counts>)
    requires SenderLags(p, history) && forall h :: h in history ==> IsCounts(h)
    ensures SenderLags(Learn(p), history)
  {
    if p.down != [] {
      var h := history[|history| - |p.down|];
      PopLags(p.view, p.down, history, InfoText);
      assert h in history;
      InfoRoundTrip(h, p.view);
      assert Learn(p) == p.(view := h, down := p.down[1..]);
    }
  }

  lemma ReplaceViews(s: State, i: nat, p: Sender)
    requires ViewsLag(s) && i < |s.senders| && SenderLags(p, s.history)
    ensures ViewsLag(s.(senders := s.senders[i := p]))
  {
    UpdateLags(s.senders, i, p, s.history);
  }

  lemma ReceiveViews(s: State, i: nat, p: Sender)
    requires ViewsLag(s) && i < |s.senders| && p == Learn(s.senders[i])
    ensures ViewsLag(s.(senders := s.senders[i := p]))
  {
    LearnLags(s.senders[i], s.history);
    ReplaceViews(s, i, p);
  }

  lemma RequestViews(s: State, i: nat, text: string)
    requires ViewsLag(s) && i < |s.senders|
    ensures ViewsLag(StepRequest(s, i, text))
  {
    if Report(text).Some? {
      ReplaceViews(s, i, Tell(s.senders[i], Report(text).value));
    }
  }

  lemma StepViews(s: State, e: Event)
    requires ViewsLag(s)
    ensures ViewsLag(Step(s, e))
  {
    if e.sender < |s.senders| {
      match e
      case Serve(i) =>
        if s.senders[i].up != [] { ServeViews(s, i); }
      case Receive(i) =>
        ReceiveViews(s, i, Learn(s.senders[i]));
      case Request(i, text) =>
        RequestViews(s, i, text);
    }
  }

  /**
   Over every run, what a sender believes is a value the receiver's counters really had: the one
   from exactly as many broadcasts ago as are still in that sender's channel.
   */
  lemma {:induction false} ViewsAreHistory(n: nat, events: seq<Event>)
    ensures ViewsLag(Run(n, events)) && |Run(n, events).senders| == n
    decreases |events|
  {
    if events != [] {
      var m := |events| - 1;
      ViewsAreHistory(n, events[..m]);
      StepViews(Run(n, events[..m]), events[m]);
    }
  }

  lemma HeadParses(p: Sender, history: seq<Counts>) returns (h: Counts)
    requires SenderLags(p, history) && p.down != [] && forall h :: h in history ==> IsCounts(h)
    ensures h in history && p.down[0] == InfoText(h) && ParseInfo(p.down[0], p.view) == Some(h)
  {
    h := history[|history| - |p.down|];
    PopLags(p.view, p.down, history, InfoText);
    assert h in history;
    InfoRoundTrip(h, p.view);
  }

  /**
   In every run the next broadcast is the text of counts that the receiver really had, and reads back
   as them: no sender ever exits over one, and no scan of one stops half-way or meets a number that
   does not fit.
   */
  lemma BroadcastsParse(n: nat, events: seq<Event>, p: Sender)
    requires p in Run(n, events).senders && p.down != []
    ensures exists h :: h in Run(n, events).history && p.down[0] == InfoText(h)
                        && IsCounts(h) && ParseInfo(p.down[0], p.view) == Some(h)
  {
    ViewsAreHistory(n, events);
    var h := HeadParses(p, Run(n, events).history);
  }

  /** In every run the receiver finds nothing but the four reports in its channels, so it never exits. */
  lemma {:induction false} OnlyReports(n: nat, events: seq<Event>)
    ensures forall p :: p in Run(n, events).senders ==> forall m :: m in p.up ==> IsReport(m)
    decreases |events|
  {
    if events != [] {
      var last := |events| - 1;
      var s, e := Run(n, events[..last]), events[last];
      OnlyReports(n, events[..last]);
      forall j | 0 <= j < |Step(s, e).senders|
        ensures forall m :: m in Step(s, e).senders[j].up ==> IsReport(m)
      {
        assert s.senders[j] in s.senders;
      }
    }
  }

  // ----- discipline -----

  /** An application leaves only after it joined, and a sender serves no more of them than it has slots. */
  predicate Disciplined(s: State, e: Event) {
    e.Request? && e.sender < |s.senders| && Report(e.text).Some? ==>
      var m, p := Report(e.text).value, s.senders[e.sender];
      && p.big + Delta(m, true) >= 0 && p.small + Delta(m, false) >= 0
      && p.big + p.small + Delta(m, true) + Delta(m, false) <= MAX_FLOWS
  }

  predicate DisciplinedRun(n: nat, events: seq<Event>)
    decreases |events|
  {
    events == [] ||
    var m := |events| - 1;
    DisciplinedRun(n, events[..m]) && Disciplined(Run(n, events[..m]), events[m])
  }

  /** Whatever prefix of its reports has been delivered, a sender's share of the counts is a real one. */
  ghost predicate Sound(p: Sender) {
    forall k :: 0 <= k <= |p.up| ==>
      && Delivered(p, true) + Net(p.up[..k], true) >= 0
      && Delivered(p, false) + Net(p.up[..k], false) >= 0
      && Delivered(p, true) + Net(p.up[..k], true) + Delivered(p, false) + Net(p.up[..k], false) <= MAX_FLOWS
  }

  lemma SoundTell(p: Sender, m: string)
    requires Sound(p) && IsReport(m)
    requires var q := Tell(p, m); q.big >= 0 && q.small >= 0 && q.big + q.small <= MAX_FLOWS
    ensures Sound(Tell(p, m))
  {
    var q := Tell(p, m);
    TellDelivered(p, m, true);
    TellDelivered(p, m, false);
    forall k | 0 <= k <= |q.up|
      ensures k <= |p.up| ==> q.up[..k] == p.up[..k]
      ensures k > |p.up| ==> q.up[..k] == q.up
    {
    }
  }

  lemma SoundServe(p: Sender)
    requires Sound(p) && p.up != []
    ensures Sound(p.(up := p.up[1..]))
    ensures Delivered(p.(up := p.up[1..]), true) == Delivered(p, true) + Delta(p.up[0], true)
    ensures Delivered(p.(up := p.up[1..]), false) == Delivered(p, false) + Delta(p.up[0], false)
  {
    var q := p.(up := p.up[1..]);
    forall k | 0 <= k <= |q.up|
      ensures Net(p.up[..k + 1], true) == Delta(p.up[0], true) + Net(q.up[..k], true)
      ensures Net(p.up[..k + 1], false) == Delta(p.up[0], false) + Net(q.up[..k], false)
    {
      assert p.up[..k + 1][1..] == q.up[..k];
    }
  }

  lemma {:induction false} SumBounds(ps: seq<Sender>)
    requires AllSound(ps)
    ensures 0 <= SumDelivered(ps, true) && 0 <= SumDelivered(ps, false)
    ensures SumDelivered(ps, true) + SumDelivered(ps, false) <= MAX_FLOWS * |ps|
  {
    if ps != [] {
      var p := ps[0];
      assert p in ps && p.up[..0] == [];
      assert Sound(p) && Net(p.up[..0], true) == 0 && Net(p.up[..0], false) == 0;
      SumBounds(ps[1..]);
    }
  }

  ghost predicate Exact(s: State) {
    && AllSound(s.senders)
    && s.server.big == SumDelivered(s.senders, true)
    && s.server.small == SumDelivered(s.senders, false)
  }

  ghost predicate AllSound(ps: seq<Sender>) {
    forall p :: p in ps ==> Sound(p)
  }

  lemma UpdateSound(ps: seq<Sender>, i: nat, p: Sender)
    requires AllSound(ps) && i < |ps| && Sound(p)
    ensures AllSound(ps[i := p])
  {
    forall q | q in ps[i := p] ensures Sound(q) {
      assert q == p || q in ps;
    }
  }

  lemma BroadcastSound(ps: seq<Sender>, text: string)
    requires AllSound(ps)
    ensures AllSound(Broadcast(ps, text))
  {
    forall j | 0 <= j < |ps| ensures Sound(Broadcast(ps, text)[j]) {
      assert ps[j] in ps;
      SoundSame(ps[j], Broadcast(ps, text)[j]);
    }
  }

  lemma StepSound(s: State, e: Event)
    requires AllSound(s.senders) && Disciplined(s, e)
    ensures AllSound(Step(s, e).senders)
  {
    if e.sender < |s.senders| {
      var i, me := e.sender, s.senders[e.sender];
      assert me in s.senders;
      match e
      case Request(_, text) =>
        if Report(text).Some? {
          SoundTell(me, Report(text).value);
          UpdateSound(s.senders, i, Tell(me, Report(text).value));
        }
      case Serve(_) =>
        if me.up != [] {
          SoundServe(me);
          UpdateSound(s.senders, i, me.(up := me.up[1..]));
          BroadcastSound(s.senders[i := me.(up := me.up[1..])], InfoText(Count(s.server, me.up[0])));
        }
      case Receive(_) =>
        SoundSame(me, Learn(me));
        UpdateSound(s.senders, i, Learn(me));
    }
  }

  lemma SoundSame(p: Sender, q: Sender)
    requires Sound(p) && p.up == q.up && p.big == q.big && p.small == q.small
    ensures Sound(q)
  {
  }

  /** As long as the sum of delivered applications stays a 16-bit number, the counter is that sum. */
  lemma StepCounts(s: State, e: Event, big: bool)
    requires Of(s.server, big) == SumDelivered(s.senders, big)
    requires 0 <= SumDelivered(Step(s, e).senders, big) < U16
    ensures Of(Step(s, e).server, big) == SumDelivered(Step(s, e).senders, big)
  {
    StepDelivered(s, e, big);
    StepServer(s, e, big);
  }

  lemma StepSize(s: State, e: Event)
    ensures |Step(s, e).senders| == |s.senders|
  {
  }

  lemma StepExact(s: State, e: Event)
    requires Exact(s) && Disciplined(s, e) && |s.senders| <= MAX_CLIENTS
    ensures Exact(Step(s, e)) && |Step(s, e).senders| == |s.senders|
  {
    StepSound(s, e);
    StepSize(s, e);
    SumBounds(Step(s, e).senders);
    StepCounts(s, e, true);
    StepCounts(s, e, false);
  }

  lemma SoundIdle(p: Sender)
    requires p.big == 0 && p.small == 0 && p.up == []
    ensures Sound(p)
  {
    assert Net([], true) == 0 && Net([], false) == 0;
    forall k | 0 <= k <= |p.up| ensures p.up[..k] == [] {
    }
  }

  lemma InitExact(n: nat)
    ensures Exact(Init(n))
  {
    SumInit(n, true);
    SumInit(n, false);
    SoundIdle(Sender(0, 0, [], [], Counts(0, 0)));
  }

  lemma {:induction false} RunExact(n: nat, events: seq<Event>)
    requires n <= MAX_CLIENTS && DisciplinedRun(n, events)
    ensures Exact(Run(n, events)) && |Run(n, events).senders| == n
    decreases |events|
  {
    if events == [] {
      InitExact(n);
    } else {
      var m := |events| - 1;
      RunExact(n, events[..m]);
      StepExact(Run(n, events[..m]), events[m]);
    }
  }

  /**
   With at most MAX_CLIENTS senders, and applications that leave only after they joined, the
   receiver's counts are the totals minus the undelivered reports as plain integers: they never
   wrap, below zero or above, and the broadcast always fits its buffer.
   */
  lemma CountsExact(n: nat, events: seq<Event>)
    requires n <= MAX_CLIENTS && DisciplinedRun(n, events)
    ensures var s := Run(n, events);
            && s.server.big == SumActive(s.senders, true) - SumNet(s.senders, true)
            && s.server.small == SumActive(s.senders, false) - SumNet(s.senders, false)
            && s.server.big + s.server.small <= MAX_FLOWS * MAX_CLIENTS
            && |InfoText(s.server)| + 1 <= BUF_SIZE
  {
    var s := Run(n, events);
    RunExact(n, events);
    SumsAgree(s.senders, true);
    SumsAgree(s.senders, false);
    SumBounds(s.senders);
    InfoFits(s.server);
  }

  predicate Quiet(s: State) {
    forall j :: 0 <= j < |s.senders| ==> s.senders[j].up == [] && s.senders[j].down == []
  }

  lemma {:induction false} QuietNet(ps: seq<Sender>, big: bool)
    requires forall j :: 0 <= j < |ps| ==> ps[j].up == []
    ensures SumNet(ps, big) == 0
  {
    if ps != [] { QuietNet(ps[1..], big); }
  }

  lemma QuietViewsAreServer(s: State)
    requires ViewsLag(s) && Quiet(s)
    ensures forall p :: p in s.senders ==> p.view == s.server
  {
    forall p | p in s.senders ensures p.view == s.server {
      var j :| 0 <= j < |s.senders| && s.senders[j] == p;
      assert SenderLags(s.senders[j], s.history);
    }
  }

  /** Once every channel has drained, every sender's view is the true totals. */
  lemma QuietViewsAreTrue(n: nat, events: seq<Event>, p: Sender)
    requires n <= MAX_CLIENTS && DisciplinedRun(n, events)
    requires Quiet(Run(n, events)) && p in Run(n, events).senders
    ensures p.view.big == SumActive(Run(n, events).senders, true)
    ensures p.view.small == SumActive(Run(n, events).senders, false)
  {
    CountsExact(n, events);
    ViewsAreHistory(n, events);
    QuietViewsAreServer(Run(n, events));
    QuietNet(Run(n, events).senders, true);
    QuietNet(Run(n, events).senders, false);
  }

  // ----- exactly which requests the counters survive -----

  /** The requests of one sender, in their order. */
  function RequestsOf(events: seq<Event>, i: nat): seq<string>
    decreases |events|
  {
    if events == [] then []
    else
      var m := |events| - 1;
      RequestsOf(events[..m], i) + Own(events[m], i)
  }

  /** The request, if any, that an event is for a sender. */
  function Own(e: Event, i: nat): seq<string> {
    if e.Request? && e.sender == i then [e.text] else []
  }

  /** What one request adds to a count. */
  function Change(request: string, big: bool): int {
    match Report(request)
    case None => 0
    case Some(m) => Delta(m, big)
  }

  /** Joins minus departures. */
  function Balance(requests: seq<string>, big: bool): int
    decreases |requests|
  {
    if requests == [] then 0
    else
      var m := |requests| - 1;
      Balance(requests[..m], big) + Change(requests[m], big)
  }

  /** The reports that a list of requests makes a sender send. */
  function Reports(requests: seq<string>): seq<string>
    decreases |requests|
  {
    if requests == [] then []
    else
      var m := |requests| - 1;
      Reports(requests[..m]) + match Report(requests[m]) case None => [] case Some(r) => [r]
  }

  lemma {:induction false} ReportsBalance(requests: seq<string>, big: bool)
    ensures Net(Reports(requests), big) == Balance(requests, big)
    decreases |requests|
  {
    if requests != [] {
      var m := |requests| - 1;
      ReportsBalance(requests[..m], big);
      if Report(requests[m]).Some? {
        var r := Report(requests[m]).value;
        NetConcat(Reports(requests[..m]), [r], big);
        assert Net([r], big) == Delta(r, big) + Net([], big);
      } else {
        assert Reports(requests) == Reports(requests[..m]);
      }
    }
  }

  /** Every beginning of the reports is what some beginning of the requests makes. */
  lemma {:induction false} PrefixOfReports(requests: seq<string>, d: nat) returns (k: nat)
    requires d <= |Reports(requests)|
    ensures k <= |requests| && Reports(requests[..k]) == Reports(requests)[..d]
    decreases |requests|
  {
    k := |requests|;
    assert requests[..k] == requests;
    if d < |Reports(requests)| {
      var m := |requests| - 1;
      k := PrefixOfReports(requests[..m], d);
      assert requests[..m][..k] == requests[..k];
      assert Reports(requests)[..d] == Reports(requests[..m])[..d];
    } else {
      assert Reports(requests)[..d] == Reports(requests);
    }
  }

  /** The channel holds the end of what was sent. */
  predicate EndsWith(sent: seq<string>, up: seq<string>) {
    |up| <= |sent| && up == sent[|sent| - |up|..]
  }

  /** What a sender has made of its requests. */
  ghost predicate Remembers(p: Sender, requests: seq<string>) {
    && EndsWith(Reports(requests), p.up)
    && p.big == Balance(requests, true) && p.small == Balance(requests, false)
  }

  lemma SentMore(sent: seq<string>, up: seq<string>, m: string)
    requires EndsWith(sent, up)
    ensures EndsWith(sent + [m], up + [m])
  {
  }

  lemma ReportsMore(requests: seq<string>, text: string)
    ensures Reports(requests + [text])
            == Reports(requests) + match Report(text) case None => [] case Some(r) => [r]
    ensures Balance(requests + [text], true) == Balance(requests, true) + Change(text, true)
    ensures Balance(requests + [text], false) == Balance(requests, false) + Change(text, false)
  {
    assert (requests + [text])[..|requests|] == requests;
  }

  lemma TellRemembers(p: Sender, requests: seq<string>, text: string, m: string)
    requires Remembers(p, requests) && Report(text) == Some(m)
    ensures Remembers(Tell(p, m), requests + [text])
  {
    ReportsMore(requests, text);
    SentMore(Reports(requests), p.up, m);
  }

  lemma QuietRequest(p: Sender, q: Sender, requests: seq<string>, text: string)
    requires Remembers(p, requests) && Report(text) == None
    requires q.up == p.up && q.big == p.big && q.small == p.small
    ensures Remembers(q, requests + [text])
  {
    ReportsMore(requests, text);
    assert Reports(requests) + [] == Reports(requests);
  }

  lemma ServeRemembers(p: Sender, q: Sender, requests: seq<string>)
    requires Remembers(p, requests) && p.up != []
    requires q.up == p.up[1..] && q.big == p.big && q.small == p.small
    ensures Remembers(q, requests)
  {
  }

  /** What one event makes of a sender, as far as its channel to the receiver goes. */
  ghost predicate Became(p: Sender, q: Sender, e: Event, i: nat) {
    if e.sender == i && e.Request? && Report(e.text).Some? then q == Tell(p, Report(e.text).value)
    else
      && q.big == p.big && q.small == p.small
      && q.up == if e.sender == i && e.Serve? && p.up != [] then p.up[1..] else p.up
  }

  lemma StepBecame(s: State, e: Event, i: nat)
    requires i < |s.senders|
    ensures |Step(s, e).senders| == |s.senders| && Became(s.senders[i], Step(s, e).senders[i], e, i)
  {
  }

  lemma BecameRemembers(p: Sender, q: Sender, e: Event, i: nat, requests: seq<string>)
    requires Remembers(p, requests) && Became(p, q, e, i)
    ensures Remembers(q, requests + Own(e, i))
  {
    if e.sender == i && e.Request? {
      if Report(e.text).Some? {
        TellRemembers(p, requests, e.text, Report(e.text).value);
      } else {
        QuietRequest(p, q, requests, e.text);
      }
    } else {
      assert requests + Own(e, i) == requests;
      if q.up != p.up { ServeRemembers(p, q, requests); }
    }
  }

  lemma {:induction false} RunRemembers(n: nat, events: seq<Event>, i: nat)
    requires i < n
    ensures |Run(n, events).senders| == n && Remembers(Run(n, events).senders[i], RequestsOf(events, i))
    decreases |events|
  {
    if events == [] {
      assert EndsWith([], []);
    } else {
      var m := |events| - 1;
      RunRemembers(n, events[..m], i);
      var s, e := Run(n, events[..m]), events[m];
      StepBecame(s, e, i);
      BecameRemembers(s.senders[i], Step(s, e).senders[i], e, i, RequestsOf(events[..m], i));
    }
  }

  /** Whatever has been delivered, the receiver knows the balances of some beginning of the requests. */
  lemma DeliveredIsBalance(p: Sender, requests: seq<string>) returns (k: nat)
    requires Remembers(p, requests)
    ensures k <= |requests|
    ensures Delivered(p, true) == Balance(requests[..k], true)
    ensures Delivered(p, false) == Balance(requests[..k], false)
  {
    var sent := Reports(requests);
    var head := sent[..|sent| - |p.up|];
    assert sent == head + p.up;
    k := PrefixOfReports(requests, |head|);
    forall big: bool ensures Delivered(p, big) == Balance(requests[..k], big) {
      NetConcat(head, p.up, big);
      ReportsBalance(requests, big);
      ReportsBalance(requests[..k], big);
    }
  }

  /** The events are some interleaving of beginnings of the senders' requests with serving and receiving. */
  ghost predicate Schedules(lists: seq<seq<string>>, events: seq<Event>) {
    forall i :: 0 <= i < |lists| ==> RequestsOf(events, i) <= lists[i]
  }

  /** No departure comes before its arrival. */
  ghost predicate NeverShort(requests: seq<string>, big: bool) {
    forall k :: 0 <= k <= |requests| ==> Balance(requests[..k], big) >= 0
  }

  /** The highest balance of any beginning of the requests. */
  function Highest(requests: seq<string>, big: bool): (h: int)
    ensures h >= 0
    decreases |requests|
  {
    if requests == [] then 0
    else Max(Highest(requests[..|requests| - 1], big), Balance(requests, big))
  }

  lemma {:induction false} HighestBounds(requests: seq<string>, big: bool, k: nat)
    requires k <= |requests|
    ensures Balance(requests[..k], big) <= Highest(requests, big)
    decreases |requests|
  {
    if k < |requests| {
      var m := |requests| - 1;
      HighestBounds(requests[..m], big, k);
      assert requests[..m][..k] == requests[..k];
    } else {
      assert requests[..k] == requests;
    }
  }

  lemma {:induction false} HighestReached(requests: seq<string>, big: bool) returns (k: nat)
    ensures k <= |requests| && Balance(requests[..k], big) == Highest(requests, big)
    decreases |requests|
  {
    k := |requests|;
    assert requests[..k] == requests;
    if requests != [] && Highest(requests, big) != Balance(requests, big) {
      var m := |requests| - 1;
      k := HighestReached(requests[..m], big);
      assert requests[..m][..k] == requests[..k];
    }
  }

  function SumHighest(lists: seq<seq<string>>, big: bool): nat {
    if lists == [] then 0 else SumHighest(lists[..|lists| - 1], big) + Highest(lists[|lists| - 1], big)
  }

  lemma {:induction false} SumDeliveredLast(ps: seq<Sender>, big: bool)
    requires ps != []
    ensures SumDelivered(ps, big) == SumDelivered(ps[..|ps| - 1], big) + Delivered(ps[|ps| - 1], big)
  {
    if |ps| > 1 {
      SumDeliveredLast(ps[1..], big);
      assert ps[1..][..|ps| - 2] == ps[..|ps| - 1][1..];
    } else {
      assert ps[1..] == [] && ps[..0] == [];
    }
  }

  ghost predicate AllRemember(ps: seq<Sender>, events: seq<Event>) {
    forall i :: 0 <= i < |ps| ==> Remembers(ps[i], RequestsOf(events, i))
  }

  lemma RunAllRemember(n: nat, events: seq<Event>, ps: seq<Sender>)
    requires ps == Run(n, events).senders
    ensures |ps| == n && AllRemember(ps, events)
  {
    ViewsAreHistory(n, events);
    forall i | 0 <= i < n ensures Remembers(ps[i], RequestsOf(events, i)) {
      RunRemembers(n, events, i);
    }
  }

  // ----- schedules that serve every request at once -----

  /** A sender's requests, each served before the next. */
  function AtOnce(requests: seq<string>, i: nat): seq<Event>
    decreases |requests|
  {
    if requests == [] then []
    else
      var m := |requests| - 1;
      AtOnce(requests[..m], i) + [Request(i, requests[m])] + [Serve(i)]
  }

  lemma RequestsAppend(events: seq<Event>, e: Event, i: nat)
    ensures RequestsOf(events + [e], i) == RequestsOf(events, i) + Own(e, i)
  {
    assert (events + [e])[..|events|] == events;
  }

  lemma TurnRequests(events: seq<Event>, text: string, i: nat, j: nat)
    ensures RequestsOf(events + [Request(i, text)] + [Serve(i)], j)
            == RequestsOf(events, j) + if j == i then [text] else []
  {
    RequestsAppend(events, Request(i, text), j);
    RequestsAppend(events + [Request(i, text)], Serve(i), j);
  }

  lemma AtOnceCons(before: seq<Event>, requests: seq<string>, text: string, i: nat)
    ensures before + AtOnce(requests + [text], i) == before + AtOnce(requests, i) + [Request(i, text)] + [Serve(i)]
  {
    assert (requests + [text])[..|requests|] == requests;
  }

  lemma {:induction false} AtOnceRequests(before: seq<Event>, requests: seq<string>, i: nat, j: nat)
    ensures RequestsOf(before + AtOnce(requests, i), j) == RequestsOf(before, j) + if j == i then requests else []
    decreases |requests|
  {
    if requests == [] {
      assert before + AtOnce(requests, i) == before;
    } else {
      var m := |requests| - 1;
      var rest, text := requests[..m], requests[m];
      assert requests == rest + [text];
      AtOnceRequests(before, rest, i, j);
      AtOnceCons(before, rest, text, i);
      TurnRequests(before + AtOnce(rest, i), text, i, j);
    }
  }

  /** Every channel to the receiver is empty, and what it has heard of adds up to `sum`. */
  ghost predicate Drained(s: State, n: nat, big: bool, sum: int) {
    && |s.senders| == n
    && (forall j :: 0 <= j < n ==> s.senders[j].up == [])
    && SumDelivered(s.senders, big) == sum
  }

  lemma ServedAtOnce(s: State, n: nat, i: nat, text: string, big: bool, sum: int)
    requires i < n && Drained(s, n, big, sum)
    ensures Drained(Step(Step(s, Request(i, text)), Serve(i)), n, big, sum + Change(text, big))
  {
    var r := Step(s, Request(i, text));
    StepDelivered(s, Request(i, text), big);
    StepDelivered(r, Serve(i), big);
    StepSize(s, Request(i, text));
    StepSize(r, Serve(i));
    assert forall j :: 0 <= j < n && j != i ==> r.senders[j] == s.senders[j];
    if Report(text).Some? {
      assert r.senders[i].up == [Report(text).value];
    }
  }

  /** A way of running events in which a request and serving it go together as they should. */
  ghost predicate ServesAtOnce(run: seq<Event> -> State, n: nat, big: bool) {
    forall events: seq<Event>, i: nat, text: string, sum: int ::
      i < n && Drained(run(events), n, big, sum) ==>
        Drained(run(events + [Request(i, text)] + [Serve(i)]), n, big, sum + Change(text, big))
  }

  lemma {:induction false} AtOnceRun(run: seq<Event> -> State, n: nat, before: seq<Event>, requests: seq<string>,
                                     i: nat, big: bool, sum: int)
    requires ServesAtOnce(run, n, big) && i < n && Drained(run(before), n, big, sum)
    ensures Drained(run(before + AtOnce(requests, i)), n, big, sum + Balance(requests, big))
    decreases |requests|
  {
    if requests == [] {
      assert before + AtOnce(requests, i) == before;
    } else {
      var m := |requests| - 1;
      AtOnceRun(run, n, before, requests[..m], i, big, sum);
      AtOnceCons(before, requests[..m], requests[m], i);
      assert requests == requests[..m] + [requests[m]];
    }
  }

  lemma RunAppend(n: nat, events: seq<Event>, e: Event)
    ensures Run(n, events + [e]) == Step(Run(n, events), e)
  {
    assert (events + [e])[..|events|] == events;
  }

  lemma RunServesAtOnce(n: nat, big: bool)
    ensures ServesAtOnce((events: seq<Event>) => Run(n, events), n, big)
    ensures Drained(Run(n, []), n, big, 0)
  {
    forall events: seq<Event>, i: nat, text: string, sum: int | i < n && Drained(Run(n, events), n, big, sum)
      ensures Drained(Run(n, events + [Request(i, text)] + [Serve(i)]), n, big, sum + Change(text, big))
    {
      RunAppend(n, events, Request(i, text));
      RunAppend(n, events + [Request(i, text)], Serve(i));
      ServedAtOnce(Run(n, events), n, i, text, big, sum);
    }
    SumInit(n, big);
    assert Run(n, []) == Init(n);
  }

  /** One sender's beginning of its requests, with everybody else silent. */
  lemma AloneReaches(run: seq<Event> -> State, lists: seq<seq<string>>, i: nat, k: nat, big: bool)
    returns (events: seq<Event>)
    requires ServesAtOnce(run, |lists|, big) && Drained(run([]), |lists|, big, 0)
    requires i < |lists| && k <= |lists[i]|
    ensures Schedules(lists, events)
    ensures SumDelivered(run(events).senders, big) == Balance(lists[i][..k], big)
  {
    events := AtOnce(lists[i][..k], i);
    assert [] + events == events;
    AtOnceRun(run, |lists|, [], lists[i][..k], i, big, 0);
    forall j | 0 <= j < |lists| ensures RequestsOf(events, j) <= lists[j] {
      AtOnceRequests([], lists[i][..k], i, j);
    }
  }

  /** One sender after the other, each with what was picked for it. */
  function InTurn(picks: seq<seq<string>>): seq<Event>
    decreases |picks|
  {
    if picks == [] then []
    else
      var m := |picks| - 1;
      InTurn(picks[..m]) + AtOnce(picks[m], m)
  }

  function SumBalance(picks: seq<seq<string>>, big: bool): int
    decreases |picks|
  {
    if picks == [] then 0
    else
      var m := |picks| - 1;
      SumBalance(picks[..m], big) + Balance(picks[m], big)
  }

  lemma {:induction false} InTurnRequests(picks: seq<seq<string>>, j: nat)
    ensures RequestsOf(InTurn(picks), j) == if j < |picks| then picks[j] else []
    decreases |picks|
  {
    if picks != [] {
      var m := |picks| - 1;
      InTurnRequests(picks[..m], j);
      AtOnceRequests(InTurn(picks[..m]), picks[m], m, j);
    }
  }

  lemma {:induction false} InTurnRun(run: seq<Event> -> State, n: nat, picks: seq<seq<string>>, big: bool)
    requires ServesAtOnce(run, n, big) && Drained(run([]), n, big, 0) && |picks| <= n
    ensures Drained(run(InTurn(picks)), n, big, SumBalance(picks, big))
    decreases |picks|
  {
    if picks != [] {
      var m := |picks| - 1;
      InTurnRun(run, n, picks[..m], big);
      AtOnceRun(run, n, InTurn(picks[..m]), picks[m], m, big, SumBalance(picks[..m], big));
    }
  }

  lemma {:induction false} HighestPicks(lists: seq<seq<string>>, big: bool) returns (picks: seq<seq<string>>)
    ensures |picks| == |lists| && SumBalance(picks, big) == SumHighest(lists, big)
    ensures forall i :: 0 <= i < |lists| ==> picks[i] <= lists[i]
    decreases |lists|
  {
    if lists == [] {
      picks := [];
    } else {
      var m := |lists| - 1;
      var before := HighestPicks(lists[..m], big);
      var k := HighestReached(lists[m], big);
      picks := before + [lists[m][..k]];
      assert picks[..m] == before;
    }
  }

  /** Every sender in turn goes to its highest balance. */
  lemma HighestReaches(run: seq<Event> -> State, lists: seq<seq<string>>, big: bool) returns (events: seq<Event>)
    requires ServesAtOnce(run, |lists|, big) && Drained(run([]), |lists|, big, 0)
    ensures Schedules(lists, events) && SumDelivered(run(events).senders, big) == SumHighest(lists, big)
  {
    var picks := HighestPicks(lists, big);
    events := InTurn(picks);
    InTurnRun(run, |lists|, picks, big);
    forall i | 0 <= i < |lists| ensures RequestsOf(events, i) <= lists[i] {
      InTurnRequests(picks, i);
    }
  }

  /** A beginning of every sender's requests. */
  ghost predicate Picked(lists: seq<seq<string>>, picks: seq<seq<string>>) {
    |picks| == |lists| && forall i :: 0 <= i < |lists| ==> picks[i] <= lists[i]
  }

  /** Any state of the receiver is that of some beginnings of the requests. */
  lemma {:induction false} DeliveredPicks(lists: seq<seq<string>>, requests: seq<seq<string>>, ps: seq<Sender>)
    returns (picks: seq<seq<string>>)
    requires |ps| == |lists| == |requests|
    requires forall i :: 0 <= i < |ps| ==> requests[i] <= lists[i] && Remembers(ps[i], requests[i])
    ensures Picked(lists, picks)
    ensures SumDelivered(ps, true) == SumBalance(picks, true) && SumDelivered(ps, false) == SumBalance(picks, false)
    decreases |ps|
  {
    if ps == [] {
      picks := [];
    } else {
      var m := |ps| - 1;
      var before := DeliveredPicks(lists[..m], requests[..m], ps[..m]);
      var k := DeliveredIsBalance(ps[m], requests[m]);
      picks := before + [requests[m][..k]];
      SumBalanceMore(before, requests[m][..k], true);
      SumBalanceMore(before, requests[m][..k], false);
      SumDeliveredLast(ps, true);
      SumDeliveredLast(ps, false);
    }
  }

  lemma SumBalanceMore(picks: seq<seq<string>>, requests: seq<string>, big: bool)
    ensures SumBalance(picks + [requests], big) == SumBalance(picks, big) + Balance(requests, big)
  {
    assert (picks + [requests])[..|picks|] == picks;
  }

  lemma SchedulePicks(lists: seq<seq<string>>, events: seq<Event>, ps: seq<Sender>) returns (picks: seq<seq<string>>)
    requires Schedules(lists, events) && |ps| == |lists| && AllRemember(ps, events)
    ensures Picked(lists, picks)
    ensures SumDelivered(ps, true) == SumBalance(picks, true) && SumDelivered(ps, false) == SumBalance(picks, false)
  {
    var requests := seq(|lists|, i requires 0 <= i < |lists| => RequestsOf(events, i));
    picks := DeliveredPicks(lists, requests, ps);
  }

  /** Balances that are never short sum up to something between zero and the highest ones. */
  lemma {:induction false} PicksBetween(lists: seq<seq<string>>, picks: seq<seq<string>>, big: bool)
    requires Picked(lists, picks)
    ensures SumBalance(picks, big) <= SumHighest(lists, big)
    ensures (forall i :: 0 <= i < |lists| ==> NeverShort(lists[i], big)) ==> SumBalance(picks, big) >= 0
    decreases |picks|
  {
    if picks != [] {
      var m := |picks| - 1;
      assert picks[m] == lists[m][..|picks[m]|];
      HighestBounds(lists[m], big, |picks[m]|);
      PicksBetween(lists[..m], picks[..m], big);
    }
  }

  lemma CongruentIsResidue(s: State, big: bool)
    requires Congruent(s, big) && ViewsLag(s)
    ensures Of(s.server, big) == SumDelivered(s.senders, big) % U16
  {
    assert s.history[|s.history| - 1] in s.history;
    EqualResidues(Of(s.server, big), SumDelivered(s.senders, big));
  }

  /** In every run the counter is the residue of the sum of the delivered reports. */
  lemma CounterIsResidue(n: nat, events: seq<Event>, big: bool)
    ensures Of(Run(n, events).server, big) == SumDelivered(Run(n, events).senders, big) % U16
  {
    RunCongruent(n, events, big);
    ViewsAreHistory(n, events);
    CongruentIsResidue(Run(n, events), big);
  }

  lemma EqualResidues(x: nat, y: int)
    requires x < U16 && (x - y) % U16 == 0
    ensures x == y % U16
  {
    DivBlock(x - y, U16);
    DivMod(y, U16, -((x - y) / U16), x);
  }

  lemma ShortReaches(run: seq<Event> -> State, lists: seq<seq<string>>, i: nat, big: bool)
    returns (events: seq<Event>)
    requires ServesAtOnce(run, |lists|, big) && Drained(run([]), |lists|, big, 0)
    requires i < |lists| && !NeverShort(lists[i], big)
    ensures Schedules(lists, events) && SumDelivered(run(events).senders, big) == -1
  {
    var j :| 0 <= j <= |lists[i]| && Balance(lists[i][..j], big) < 0;
    var k := FirstShort(lists[i], j, big);
    events := AloneReaches(run, lists, i, k, big);
  }

  lemma RunShort(lists: seq<seq<string>>, i: nat, big: bool) returns (events: seq<Event>)
    requires i < |lists| && !NeverShort(lists[i], big)
    ensures Schedules(lists, events) && SumDelivered(Run(|lists|, events).senders, big) == -1
  {
    RunServesAtOnce(|lists|, big);
    events := ShortReaches((es: seq<Event>) => Run(|lists|, es), lists, i, big);
  }

  /**
   A departure that comes before its arrival does wrap the counter: if some beginning of a sender's
   requests has more departures than arrivals, there is a schedule that leaves the counter at 65535.
   */
  lemma ShortWraps(lists: seq<seq<string>>, i: nat, big: bool) returns (events: seq<Event>)
    requires i < |lists| && !NeverShort(lists[i], big)
    ensures Schedules(lists, events)
    ensures SumDelivered(Run(|lists|, events).senders, big) == -1
    ensures Of(Run(|lists|, events).server, big) == U16 - 1
  {
    events := RunShort(lists, i, big);
    CounterIsResidue(|lists|, events, big);
  }

  /** The first beginning that is short is short by one. */
  lemma {:induction false} FirstShort(requests: seq<string>, j: nat, big: bool) returns (k: nat)
    requires j <= |requests| && Balance(requests[..j], big) < 0
    ensures k <= j && Balance(requests[..k], big) == -1
  {
    k := j;
    assert requests[..j][..j - 1] == requests[..j - 1];
    if Balance(requests[..j], big) < -1 { k := FirstShort(requests, j - 1, big); }
  }

  /**
   The exact condition for a counter never to go below zero: no schedule of the requests makes the
   receiver count more departures than arrivals if and only if no beginning of any sender's own
   requests has more departures than arrivals.
   */
  lemma NeverBelowZeroIff(lists: seq<seq<string>>, big: bool)
    ensures (forall events :: Schedules(lists, events) ==> SumDelivered(Run(|lists|, events).senders, big) >= 0)
            <==> forall i :: 0 <= i < |lists| ==> NeverShort(lists[i], big)
  {
    if forall i :: 0 <= i < |lists| ==> NeverShort(lists[i], big) {
      forall events | Schedules(lists, events) ensures SumDelivered(Run(|lists|, events).senders, big) >= 0 {
        RunAllRemember(|lists|, events, Run(|lists|, events).senders);
        var picks := SchedulePicks(lists, events, Run(|lists|, events).senders);
        PicksBetween(lists, picks, big);
      }
    } else {
      var i :| 0 <= i < |lists| && !NeverShort(lists[i], big);
      var events := ShortWraps(lists, i, big);
    }
  }

  /** The counter is the number it should be, not just modulo 2^16. */
  ghost predicate CountsTrue(s: State, big: bool) {
    Of(s.server, big) == SumActive(s.senders, big) - SumNet(s.senders, big)
  }

  lemma TrueIffInRange(n: nat, events: seq<Event>, big: bool)
    ensures CountsTrue(Run(n, events), big) <==> 0 <= SumDelivered(Run(n, events).senders, big) < U16
  {
    CounterIsResidue(n, events, big);
    SumsAgree(Run(n, events).senders, big);
  }

  /** The other way to wrap: the highest balances together are too much for 16 bits. */
  lemma HighestWraps(lists: seq<seq<string>>, big: bool) returns (events: seq<Event>)
    requires SumHighest(lists, big) >= U16
    ensures Schedules(lists, events) && !CountsTrue(Run(|lists|, events), big)
  {
    RunServesAtOnce(|lists|, big);
    events := HighestReaches((es: seq<Event>) => Run(|lists|, es), lists, big);
    TrueIffInRange(|lists|, events, big);
  }

  lemma NeverWraps(lists: seq<seq<string>>, events: seq<Event>, big: bool)
    requires (forall i :: 0 <= i < |lists| ==> NeverShort(lists[i], big)) && SumHighest(lists, big) < U16
    requires Schedules(lists, events)
    ensures CountsTrue(Run(|lists|, events), big)
  {
    var ps := Run(|lists|, events).senders;
    RunAllRemember(|lists|, events, ps);
    var picks := SchedulePicks(lists, events, ps);
    PicksBetween(lists, picks, big);
    TrueIffInRange(|lists|, events, big);
  }

  /**
   The exact condition for a counter never to wrap: in every schedule of the requests it is the total
   minus the undelivered reports, as an integer, if and only if no beginning of any sender's requests
   has more departures than arrivals and the highest balances of all senders add up to a 16-bit number.
   */
  lemma NeverWrapsIff(lists: seq<seq<string>>, big: bool)
    ensures (forall events :: Schedules(lists, events) ==> CountsTrue(Run(|lists|, events), big))
            <==> (forall i :: 0 <= i < |lists| ==> NeverShort(lists[i], big)) && SumHighest(lists, big) < U16
  {
    if SumHighest(lists, big) >= U16 {
      var events := HighestWraps(lists, big);
    } else if i :| 0 <= i < |lists| && !NeverShort(lists[i], big) {
      var events := ShortWraps(lists, i, big);
      TrueIffInRange(|lists|, events, big);
    } else {
      forall events | Schedules(lists, events) ensures CountsTrue(Run(|lists|, events), big) {
        NeverWraps(lists, events, big);
      }
    }
  }

  // ----- exactly when the broadcast fits its buffer -----

  predicate Fits(c: Counts) {
    |InfoText(c)| + 1 <= BUF_SIZE
  }

  /** Not both counts have five digits once the receiver knows of these requests. */
  predicate FewDigits(picks: seq<seq<string>>) {
    SumBalance(picks, true) % U16 < 10000 || SumBalance(picks, false) % U16 < 10000
  }

  /** Any beginnings of the requests can be all that the receiver has heard of, in both counts. */
  lemma PicksReached(lists: seq<seq<string>>, picks: seq<seq<string>>) returns (events: seq<Event>)
    requires Picked(lists, picks)
    ensures Schedules(lists, events)
    ensures Of(Run(|lists|, events).server, true) == SumBalance(picks, true) % U16
    ensures Of(Run(|lists|, events).server, false) == SumBalance(picks, false) % U16
  {
    events := InTurn(picks);
    forall i | 0 <= i < |lists| ensures RequestsOf(events, i) <= lists[i] {
      InTurnRequests(picks, i);
    }
    InTurnCount(picks, true);
    InTurnCount(picks, false);
  }

  lemma InTurnCount(picks: seq<seq<string>>, big: bool)
    ensures Of(Run(|picks|, InTurn(picks)).server, big) == SumBalance(picks, big) % U16
  {
    RunServesAtOnce(|picks|, big);
    InTurnRun((es: seq<Event>) => Run(|picks|, es), |picks|, picks, big);
    CounterIsResidue(|picks|, InTurn(picks), big);
  }

  lemma ServerIsCounts(n: nat, events: seq<Event>)
    ensures IsCounts(Run(n, events).server)
  {
    CounterIsResidue(n, events, true);
    CounterIsResidue(n, events, false);
  }

  lemma ScheduleFits(lists: seq<seq<string>>, events: seq<Event>) returns (picks: seq<seq<string>>)
    requires Schedules(lists, events)
    ensures Picked(lists, picks) && (Fits(Run(|lists|, events).server) <==> FewDigits(picks))
  {
    var s := Run(|lists|, events);
    RunAllRemember(|lists|, events, s.senders);
    picks := SchedulePicks(lists, events, s.senders);
    CounterIsResidue(|lists|, events, true);
    CounterIsResidue(|lists|, events, false);
    InfoFits(s.server);
  }

  lemma PicksOverflow(lists: seq<seq<string>>, picks: seq<seq<string>>) returns (events: seq<Event>)
    requires Picked(lists, picks) && !FewDigits(picks)
    ensures Schedules(lists, events) && !Fits(Run(|lists|, events).server)
  {
    events := PicksReached(lists, picks);
    ServerIsCounts(|lists|, events);
    InfoFits(Run(|lists|, events).server);
  }

  /**
   The exact condition for every broadcast to fit its buffer: in every schedule of the requests the
   text and its zero fit if and only if no choice of beginnings, one for each sender, has balances whose
   16-bit residues both take five digits.
   */
  lemma BroadcastFitsIff(lists: seq<seq<string>>)
    ensures (forall events :: Schedules(lists, events) ==> Fits(Run(|lists|, events).server))
            <==> forall picks :: Picked(lists, picks) ==> FewDigits(picks)
  {
    if forall picks :: Picked(lists, picks) ==> FewDigits(picks) {
      forall events | Schedules(lists, events) ensures Fits(Run(|lists|, events).server) {
        var picks := ScheduleFits(lists, events);
      }
    } else {
      var picks :| Picked(lists, picks) && !FewDigits(picks);
      var events := PicksOverflow(lists, picks);
    }
  }

  /** Two unannounced departures are enough: one of a big and one of a small application. */
  lemma TwoDeparturesOverflow() returns (events: seq<Event>)
    ensures Schedules([["exit_app_bw", "exit_app_lat"]], events)
    ensures Run(1, events).server == Counts(65535, 65535)
    ensures !Fits(Run(1, events).server)
  {
    var requests := ["exit_app_bw", "exit_app_lat"];
    var lists := [requests];
    TwoDepartures(requests, true);
    TwoDepartures(requests, false);
    assert lists[..0] == [];
    events := PicksReached(lists, lists);
    InfoFits(Run(1, events).server);
  }

  lemma TwoDepartures(requests: seq<string>, big: bool)
    requires requests == ["exit_app_bw", "exit_app_lat"]
    ensures Balance(requests, big) == -1
  {
    assert Report("exit_app_bw") == Some("big_dec") && Report("exit_app_lat") == Some("small_dec");
    ReportsMore([], "exit_app_bw");
    ReportsMore(["exit_app_bw"], "exit_app_lat");
    assert [] + ["exit_app_bw"] == ["exit_app_bw"] && ["exit_app_bw"] + ["exit_app_lat"] == requests;
  }

  // ----- what arrivals and departures come to -----

  /** The two kinds of report that an application of each sort makes, said once more without `Report`. */
  lemma ReportsOf(request: string)
    ensures request == "app_bw" || request == "app_tput" ==> Report(request) == Some("big_inc")
    ensures request == "app_lat" ==> Report(request) == Some("small_inc")
    ensures request == "exit_app_bw" || request == "exit_app_tput" ==> Report(request) == Some("big_dec")
    ensures request == "exit_app_lat" ==> Report(request) == Some("small_dec")
    ensures Report(request).Some? <==>
              request in ["app_bw", "app_tput", "app_lat", "exit_app_bw", "exit_app_tput", "exit_app_lat"]
    ensures IsAppMessage(request) <==> "app_" <= request || "exit_app" <= request
  {
  }

  /** A request that is served at once. */
  function Served(s: State, i: nat, text: string): State {
    Step(Step(s, Request(i, text)), Serve(i))
  }

  lemma ServedCounts(s: State, i: nat, text: string, m: string)
    requires i < |s.senders| && s.senders[i].up == [] && Report(text) == Some(m)
    ensures var t := Served(s, i, text);
            && |t.senders| == |s.senders| && t.server == Count(s.server, m)
            && t.senders[i].up == [] && t.senders[i].big == s.senders[i].big + Delta(m, true)
            && t.senders[i].small == s.senders[i].small + Delta(m, false)
  {
    assert [m][1..] == [];
  }

  /** From a fresh start, one arrival leaves the receiver with one application of its kind and none of the other. */
  lemma OneArrival(n: nat, i: nat, text: string)
    requires i < n && text in ["app_bw", "app_tput", "app_lat"]
    ensures Run(n, [Request(i, text), Serve(i)]).server
            == if text == "app_lat" then Counts(0, 1) else Counts(1, 0)
  {
    ReportsOf(text);
    RunTwo(n, Request(i, text), Serve(i));
    ServedCounts(Init(n), i, text, Report(text).value);
    FirstCounts(Report(text).value);
  }

  lemma FirstCounts(m: string)
    requires m == "big_inc" || m == "small_inc"
    ensures Count(Counts(0, 0), m) == if m == "small_inc" then Counts(0, 1) else Counts(1, 0)
  {
  }

  /** The departure that goes with an arrival. */
  predicate Leaves(arrival: string, departure: string) {
    || (arrival == "app_bw" && departure == "exit_app_bw")
    || (arrival == "app_tput" && departure == "exit_app_tput")
    || (arrival == "app_lat" && departure == "exit_app_lat")
  }

  /** In every state, an arrival followed by the departure of the same kind restores all counts, on both sides. */
  lemma DepartureUndoesArrival(s: State, i: nat, arrival: string, departure: string)
    requires i < |s.senders| && s.senders[i].up == [] && IsCounts(s.server) && Leaves(arrival, departure)
    ensures Served(s, i, arrival).server != s.server
    ensures var t := Served(Served(s, i, arrival), i, departure);
            && t.server == s.server
            && t.senders[i].big == s.senders[i].big && t.senders[i].small == s.senders[i].small
  {
    ReportsOf(arrival);
    ReportsOf(departure);
    var a, d := Report(arrival).value, Report(departure).value;
    ServedCounts(s, i, arrival, a);
    ServedCounts(Served(s, i, arrival), i, departure, d);
    CountUndone(s.server, a, d);
  }

  lemma CountUndone(c: Counts, a: string, d: string)
    requires IsCounts(c) && ((a == "big_inc" && d == "big_dec") || (a == "small_inc" && d == "small_dec"))
    ensures Count(c, a) != c && Count(Count(c, a), d) == c
  {
  }

  // ----- discipline is each sender's own -----

  /** Departures follow their arrivals, and never more applications than there are slots. */
  predicate Orderly(requests: seq<string>)
    decreases |requests|
  {
    requests == [] ||
    (Orderly(requests[..|requests| - 1])
     && Balance(requests, true) >= 0 && Balance(requests, false) >= 0
     && Balance(requests, true) + Balance(requests, false) <= MAX_FLOWS)
  }

  lemma {:induction false} OrderlyIsNeverShort(requests: seq<string>, big: bool)
    requires Orderly(requests)
    ensures NeverShort(requests, big) && Highest(requests, big) <= MAX_FLOWS
    decreases |requests|
  {
    forall k | 0 <= k <= |requests| ensures Balance(requests[..k], big) >= 0 {
      if k < |requests| {
        OrderlyIsNeverShort(requests[..|requests| - 1], big);
        assert requests[..|requests| - 1][..k] == requests[..k];
      } else {
        assert requests[..k] == requests;
      }
    }
    if requests != [] { OrderlyIsNeverShort(requests[..|requests| - 1], big); }
  }

  ghost predicate AllOrderly(n: nat, events: seq<Event>) {
    forall i :: 0 <= i < n ==> Orderly(RequestsOf(events, i))
  }

  lemma OrderlyMore(s: State, e: Event, i: nat, requests: seq<string>)
    requires i < |s.senders| && Remembers(s.senders[i], requests) && Orderly(requests)
    ensures e.sender != i || !e.Request? || Report(e.text) == None ==> Orderly(requests + Own(e, i))
    ensures e.sender == i && e.Request? ==> (Orderly(requests + Own(e, i)) <==> Disciplined(s, e))
  {
    if e.sender == i && e.Request? {
      assert (requests + [e.text])[..|requests|] == requests;
      BalanceOfOrderly(requests);
    } else {
      assert requests + Own(e, i) == requests;
    }
  }

  lemma BalanceOfOrderly(requests: seq<string>)
    requires Orderly(requests)
    ensures Balance(requests, true) >= 0 && Balance(requests, false) >= 0
    ensures Balance(requests, true) + Balance(requests, false) <= MAX_FLOWS
  {
  }

  lemma OrderlyStep(s: State, n: nat, e: Event, before: seq<Event>)
    requires |s.senders| == n && AllRemember(s.senders, before) && AllOrderly(n, before)
    ensures AllOrderly(n, before + [e]) <==> Disciplined(s, e)
  {
    forall i | 0 <= i < n
      ensures RequestsOf(before + [e], i) == RequestsOf(before, i) + Own(e, i)
      ensures e.sender != i || !e.Request? ==> Orderly(RequestsOf(before + [e], i))
      ensures e.sender == i && e.Request? ==> (Orderly(RequestsOf(before + [e], i)) <==> Disciplined(s, e))
    {
      RequestsAppend(before, e, i);
      OrderlyMore(s, e, i, RequestsOf(before, i));
    }
  }

  lemma AllOrderlyBefore(n: nat, before: seq<Event>, e: Event)
    requires AllOrderly(n, before + [e])
    ensures AllOrderly(n, before)
  {
    forall i | 0 <= i < n ensures Orderly(RequestsOf(before, i)) {
      RequestsAppend(before, e, i);
      var requests := RequestsOf(before, i);
      if Own(e, i) == [] {
        assert requests + Own(e, i) == requests;
      } else {
        assert (requests + Own(e, i))[..|requests|] == requests;
      }
    }
  }

  /** A run is disciplined if and only if each sender's own requests are, however they interleave. */
  lemma {:induction false} DisciplinedIff(n: nat, events: seq<Event>)
    ensures DisciplinedRun(n, events) <==> AllOrderly(n, events)
    decreases |events|
  {
    if events != [] {
      var before, e := events[..|events| - 1], events[|events| - 1];
      assert events == before + [e];
      DisciplinedIff(n, before);
      if AllOrderly(n, events) { AllOrderlyBefore(n, before, e); }
      if AllOrderly(n, before) {
        RunAllRemember(n, before, Run(n, before).senders);
        OrderlyStep(Run(n, before), n, e, before);
      }
    }
  }

  // ----- the threads -----

  class Network {
    const senders: array<Sender>
    var currentNumBigApps: nat
    var currentNumSmallApps: nat
    ghost var history: seq<Counts>

    ghost function Abs(): State
      reads this, senders
    {
      State(senders[..], Counts(currentNumBigApps, currentNumSmallApps), history)
    }

    constructor (n: nat)
      ensures Abs() == Init(n) && fresh(senders)
    {
      senders := new Sender[n](_ => Sender(0, 0, [], [], Counts(0, 0)));
      currentNumBigApps, currentNumSmallApps := 0, 0;
      history := [Counts(0, 0)];
      new;
      assert senders[..] == Init(n).senders;
    }

    /**
     flow_handler on a sender, for one message of an application; false where the source exits. Bandwidth
     and throughput applications are big, latency applications small; an arrival reports one more and a
     departure one less of its kind, and nothing else is ever reported.
     */
    method HandleFlow(i: nat, request: string) returns (ok: bool)
      requires i < senders.Length
      modifies senders
      ensures Abs() == Step(old(Abs()), Request(i, request))
      ensures ok <==> request in ["app_bw", "app_tput", "app_lat", "exit_app_bw", "exit_app_tput", "exit_app_lat"]
                      || !("app_" <= request || "exit_app" <= request)
      ensures forall j :: 0 <= j < senders.Length && j != i ==> senders[j] == old(senders[j])
      ensures var p, q := old(senders[i]), senders[i];
              if request == "app_bw" || request == "app_tput" then
                q == p.(big := p.big + 1, up := p.up + ["big_inc"])
              else if request == "app_lat" then
                q == p.(small := p.small + 1, up := p.up + ["small_inc"])
              else if request == "exit_app_bw" || request == "exit_app_tput" then
                q == p.(big := p.big - 1, up := p.up + ["big_dec"])
              else if request == "exit_app_lat" then
                q == p.(small := p.small - 1, up := p.up + ["small_dec"])
              else q == p
    {
      ReportsOf(request);
      var sending := "";
      if |request| >= 8 && request[..8] == "exit_app" {
        assert request[0] == "exit_app"[0] != 'a';
        if request == "exit_app_bw" {
          sending := "big_dec";
        } else if request == "exit_app_lat" {
          sending := "small_dec";
        } else if request == "exit_app_tput" {
          sending := "big_dec";
        } else {
          return false;
        }
      } else if |request| >= 4 && request[..4] == "app_" {
        if request == "app_bw" {
          sending := "big_inc";
        } else if request == "app_lat" {
          sending := "small_inc";
        } else if request == "app_tput" {
          sending := "big_inc";
        } else {
          return false;
        }
      } else {
        return true;
      }
      var p := senders[i];
      senders[i] := Tell(p, sending);
      return true;
    }

    /** The receiver's counters are 16-bit words. */
    ghost predicate Valid()
      reads this
    {
      currentNumBigApps < U16 && currentNumSmallApps < U16
    }

    /** One turn of server_loop for a client: count its next report, tell everybody; false where the source exits. */
    method ServeOne(i: nat) returns (ok: bool)
      requires i < senders.Length && Valid()
      modifies this, senders
      ensures Valid()
      ensures ok <==> old(senders[i]).up == [] || IsReport(old(senders[i]).up[0])
      ensures ok ==> Abs() == Step(old(Abs()), Serve(i))
    {
      var p := senders[i];
      if p.up == [] {
        return true;
      }
      ok := Tally(p.up[0]);
      if !ok {
        return;
      }
      senders[i] := p.(up := p.up[1..]);
      history := history + [Counts(currentNumBigApps, currentNumSmallApps)];
      Announce(InfoText(Counts(currentNumBigApps, currentNumSmallApps)));
    }

    /** Counts one report in the 16-bit counters; false for a text that is no report. */
    method Tally(m: string) returns (ok: bool)
      requires Valid()
      modifies this`currentNumBigApps, this`currentNumSmallApps
      ensures Valid() && (ok <==> IsReport(m))
      ensures ok ==> Counts(currentNumBigApps, currentNumSmallApps)
                     == Count(old(Counts(currentNumBigApps, currentNumSmallApps)), m)
      ensures m == "big_inc" ==> currentNumBigApps == (old(currentNumBigApps) + 1) % 65536
      ensures m == "big_dec" ==> currentNumBigApps == (old(currentNumBigApps) + 65535) % 65536
      ensures m == "small_inc" ==> currentNumSmallApps == (old(currentNumSmallApps) + 1) % 65536
      ensures m == "small_dec" ==> currentNumSmallApps == (old(currentNumSmallApps) + 65535) % 65536
      ensures m != "big_inc" && m != "big_dec" ==> currentNumBigApps == old(currentNumBigApps)
      ensures m != "small_inc" && m != "small_dec" ==> currentNumSmallApps == old(currentNumSmallApps)
    {
      if m == "big_inc" {
        currentNumBigApps := if currentNumBigApps + 1 == U16 then 0 else currentNumBigApps + 1;
      } else if m == "small_inc" {
        currentNumSmallApps := if currentNumSmallApps + 1 == U16 then 0 else currentNumSmallApps + 1;
      } else if m == "big_dec" {
        currentNumBigApps := if currentNumBigApps == 0 then U16 - 1 else currentNumBigApps - 1;
      } else if m == "small_dec" {
        currentNumSmallApps := if currentNumSmallApps == 0 then U16 - 1 else currentNumSmallApps - 1;
      } else {
        return false;
      }
      return true;
    }

    /** The broadcast loop. */
    method Announce(text: string)
      modifies senders
      ensures senders[..] == Broadcast(old(senders[..]), text)
    {
      ghost var before := senders[..];
      for j := 0 to senders.Length
        invariant forall k :: 0 <= k < senders.Length ==>
                    senders[k] == if k < j then before[k].(down := before[k].down + [text]) else before[k]
      {
        senders[j] := senders[j].(down := senders[j].down + [text]);
      }
    }

    /** The part of monitor_latency that reads one broadcast; false on a wrong prefix, where the source exits. */
    method ReadInfo(i: nat) returns (ok: bool)
      requires i < senders.Length
      modifies senders
      ensures Abs() == Step(old(Abs()), Receive(i))
      ensures ok <==> var down := old(senders[i]).down; down == [] || "INFO:" <= down[0]
    {
      var p := senders[i];
      if p.down == [] {
        assert senders[..] == senders[..][i := Learn(p)];
        return true;
      }
      ghost var before := senders[..];
      assert "INFO:" <= p.down[0] <==> |p.down[0]| >= 5 && p.down[0][..5] == "INFO:";
      match ParseInfo(p.down[0], p.view) {
        case None =>
          assert senders[..] == before[i := Learn(p)];
          return false;
        case Some(c) =>
          senders[i] := p.(view := c, down := p.down[1..]);
          assert senders[..] == before[i := Learn(p)];
          return true;
      }
    }
  }
}
