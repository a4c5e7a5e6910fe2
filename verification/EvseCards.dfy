/**
 * Cards and the learn window, over whole runs: exactly when a presented card is learnt, and
 * exactly when a session is authorised, in terms of what was requested and presented.
 */
module EvseCards {
  import opened Evse
  import opened EvseRuns
  import opened EvseSensors

  /** What one tick shows of cards: the learn window armed by request, and a card presented. */
  datatype CardTick = CardTick(armed: bool, presented: bool)

  function CardOf(x: Input): CardTick {
    CardTick(LearnArm in Taken(x.requests), x.swipe != NoCard)
  }

  function CardsOf(xs: seq<Input>): (h: seq<CardTick>)
    ensures |h| == |xs|
  {
    seq(|xs|, i requires 0 <= i < |xs| => CardOf(xs[i]))
  }

  /** The window armed in tick `k` is still open `m` ticks after the last of the history. */
  ghost predicate ArmedAt(h: seq<CardTick>, k: int, m: nat) {
    && 0 <= k < |h| && h[k].armed && |h| - k + m <= 1500
    && forall j :: k <= j < |h| ==> !h[j].presented
  }

  ghost predicate StillArmed(h: seq<CardTick>, m: nat) {
    exists k :: ArmedAt(h, k, m)
  }

  lemma ArmedStep(h: seq<CardTick>, c: CardTick, m: nat)
    requires m < 1500
    ensures StillArmed(h + [c], m) <==> !c.presented && (c.armed || StillArmed(h, m + 1))
  {
    var e := h + [c];
    if !c.presented && c.armed {
      assert ArmedAt(e, |h|, m);
    } else if !c.presented && StillArmed(h, m + 1) {
      var k :| ArmedAt(h, k, m + 1);
      assert ArmedAt(e, k, m);
    }
    if StillArmed(e, m) {
      var k :| ArmedAt(e, k, m);
      assert !e[|h|].presented;
      if k < |h| {
        assert forall j :: k <= j < |h| ==> !h[j].presented by {
          forall j | k <= j < |h| ensures !h[j].presented { assert h[j] == e[j]; }
        }
        assert ArmedAt(h, k, m + 1);
      }
    }
  }

  // ---------------------------------------------------------------- the window

  lemma {:induction false} DrainedLearn(st: State, rs: seq<Request>)
    ensures Drained(st, rs).learn == if LearnArm in rs then LEARN_TICKS else st.learn
    decreases |rs|
  {
    if rs != [] {
      DrainedLearn(st, rs[..|rs| - 1]);
      ProcessedLearn(Drained(st, rs[..|rs| - 1]), rs[|rs| - 1]);
    }
  }

  lemma ProcessedLearn(st: State, r: Request)
    ensures Processed(st, r).learn == if r == LearnArm then LEARN_TICKS else st.learn
  {
  }

  lemma BegunLearn(st: State, x: Input)
    ensures Begun(st, x).learn == if CardOf(x).armed then LEARN_TICKS else st.learn
  {
    DrainedLearn(st, Taken(x.requests));
    WindowLearn(Drained(st, Taken(x.requests)));
  }

  lemma WindowLearn(st: State)
    ensures WindowServed(st).learn == st.learn
  {
  }

  /** One tick of the window: a card closes it, otherwise it gets a tick shorter. */
  lemma TickLearn(st: State, x: Input)
    ensures var n := if CardOf(x).armed then 1500 else st.learn;
      && Performed(st, x, UP_TO_METER).learn == n
      && Tick(st, x).learn == if CardOf(x).presented || n == 0 then 0 else n - 1
  {
    BegunLearn(st, x);
    AfterCpEStill(st, x);
    CardStage(st, x);
    SwipeLearn(Performed(st, x, UP_TO_METER), x.swipe);
  }

  lemma CardStage(st: State, x: Input)
    ensures Tick(st, x) == Swiped(Performed(st, x, UP_TO_METER), x.swipe)
  {
    StagesWrittenOut(st, x);
  }

  lemma SwipeLearn(d: State, swipe: Swipe)
    ensures Swiped(d, swipe).learn == if swipe != NoCard || d.learn == 0 then 0 else d.learn - 1
  {
  }

  lemma {:induction false} LearnLeft(st: State, xs: seq<Input>, m: nat)
    requires st.learn == 0 && 0 < m
    ensures Run(st, xs).learn < 1500
    ensures Run(st, xs).learn >= m <==> StillArmed(CardsOf(xs), m)
    decreases |xs|
  {
    if xs != [] {
      var ys, x := xs[..|xs| - 1], xs[|xs| - 1];
      assert CardsOf(xs) == CardsOf(ys) + [CardOf(x)];
      LearnLeft(st, ys, m + 1);
      TickLearn(Run(st, ys), x);
      if m < 1500 {
        ArmedStep(CardsOf(ys), CardOf(x), m);
      } else {
        assert !StillArmed(CardsOf(xs), m);
      }
    }
  }

  /** A card presented in tick `x` is learnt, not asked for authorisation. */
  ghost predicate Learns(xs: seq<Input>, x: Input) {
    CardOf(x).armed || StillArmed(CardsOf(xs), 1)
  }

  /**
   * The learn window is open in a tick exactly if it was armed by request in it or in one of
   * the 1499 before, and no card has been presented since.
   */
  lemma LearnsExactly(st: State, xs: seq<Input>, x: Input)
    requires st.learn == 0
    ensures Performed(Run(st, xs), x, UP_TO_METER).learn > 0 <==> Learns(xs, x)
  {
    LearnLeft(st, xs, 1);
    TickLearn(Run(st, xs), x);
  }

  /** What one tick grants: a known card outside the learn window. */
  lemma GrantsExactly(st: State, xs: seq<Input>, x: Input)
    requires st.learn == 0
    ensures GlimpseOf(Run(st, xs), x).granted <==> x.swipe == KnownCard && !Learns(xs, x)
  {
    LearnsExactly(st, xs, x);
  }
}
