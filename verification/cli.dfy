/**
  The program's entry point, `main`: choosing the listening ports, the
  non-interactive mode that prints the Signals the filter matches, and the
  event loop that hands keys to the dashboard and quits on an Escape or
  Ctrl+C the dashboard did not consume.
*/
module Cli {
  import opened Props
  import opened Bucket
  import opened Keys
  import opened Wrappers
  import Dashboard

  // ---------------------------------------------------------------------------
  // Ports
  // ---------------------------------------------------------------------------

  /** The two refusals at start-up: both bindings disabled ("Disabled gRPC
      and HTTP"), or a negative port ("Invalid port number"). */
  datatype PortError = BothDisabled | InvalidPort

  /** The ports handed to the servers; 0 means the binding is off. */
  datatype Ports = Ports(grpc: int, http: int)

  /** A disabled binding gets port 0, an enabled one its flag value. */
  function EffectivePort(flag: int, disabled: bool): (p: int)
    ensures disabled ==> p == 0
    ensures !disabled ==> p == flag
  {
    if disabled then 0 else flag
  }

  /** The port checks of `main`, in order: both off is refused first, then
      a negative port. */
  function SelectPorts(grpcFlag: int, grpcDisabled: bool, httpFlag: int, httpDisabled: bool): (r: Result<Ports, PortError>)
    ensures var g := EffectivePort(grpcFlag, grpcDisabled);
            var h := EffectivePort(httpFlag, httpDisabled);
            && (r.Success? <==> g >= 0 && h >= 0 && (g > 0 || h > 0))
            && (r.Success? ==> r.value == Ports(g, h))
            && (r == Failure(BothDisabled) <==> g == 0 && h == 0)
    ensures grpcDisabled && httpDisabled ==> r == Failure(BothDisabled)
  {
    var grpcPort := EffectivePort(grpcFlag, grpcDisabled);
    var httpPort := EffectivePort(httpFlag, httpDisabled);
    if grpcPort == 0 && httpPort == 0 then Failure(BothDisabled)
    else if grpcPort < 0 || httpPort < 0 then Failure(InvalidPort)
    else Success(Ports(grpcPort, httpPort))
  }

  /** With the default flags (4317 and 4318, nothing disabled) both servers
      start; disabling one leaves the other. */
  lemma DefaultPorts()
    ensures SelectPorts(4317, false, 4318, false) == Success(Ports(4317, 4318))
    ensures SelectPorts(4317, true, 4318, false) == Success(Ports(0, 4318))
    ensures SelectPorts(-1, true, 4318, true) == Failure(BothDisabled)
    ensures SelectPorts(-1, false, 4318, false) == Failure(InvalidPort)
  {
  }

  // ---------------------------------------------------------------------------
  // Non-interactive mode
  // ---------------------------------------------------------------------------

  /** One printed line: the sequence number, the time and the summary. The
      time's rendering as text is left out. */
  datatype Printed = Printed(seqNo: nat, time: Timestamp, summary: string)

  /** Reference definition of the output for the Signals received so far:
      the `n`-th Signal received is printed with number `n` when the filter
      matches it. */
  function Printout(received: seq<Signal>, filter: string): seq<Printed> {
    if |received| == 0 then []
    else
      var n := |received|;
      var s := received[n - 1];
      Printout(received[..n - 1], filter) + if Dashboard.Matches(s, filter) then [Printed(n, s.time, s.summary)] else []
  }

  /** Line `j` reports a received Signal the filter matches. */
  predicate Reports(out: seq<Printed>, j: int, received: seq<Signal>, filter: string)
    requires 0 <= j < |out|
  {
    && 1 <= out[j].seqNo <= |received|
    && Dashboard.Matches(received[out[j].seqNo - 1], filter)
    && out[j].summary == received[out[j].seqNo - 1].summary
    && out[j].time == received[out[j].seqNo - 1].time
  }

  /** Every printed line reports a received Signal the filter matches; the
      numbers strictly increase; every matching Signal is printed. */
  lemma {:induction false} PrintoutFacts(received: seq<Signal>, filter: string)
    ensures forall j :: 0 <= j < |Printout(received, filter)| ==> Reports(Printout(received, filter), j, received, filter)
    ensures forall j :: 0 <= j < |Printout(received, filter)| - 1 ==>
              Printout(received, filter)[j].seqNo < Printout(received, filter)[j + 1].seqNo
    ensures forall i :: 0 <= i < |received| && Dashboard.Matches(received[i], filter) ==>
              exists j :: 0 <= j < |Printout(received, filter)| && Printout(received, filter)[j].seqNo == i + 1
  {
    if |received| > 0 {
      var n := |received|;
      var init := received[..n - 1];
      PrintoutFacts(init, filter);
      var out := Printout(received, filter);
      var before := Printout(init, filter);
      assert out[..|before|] == before;
      forall j | 0 <= j < |before| ensures before[j].seqNo <= n - 1 && Reports(out, j, received, filter) {
        assert Reports(before, j, init, filter);
        assert init[before[j].seqNo - 1] == received[before[j].seqNo - 1];
        assert out[j] == before[j];
      }
      forall i | 0 <= i < n && Dashboard.Matches(received[i], filter)
        ensures exists j :: 0 <= j < |out| && out[j].seqNo == i + 1
      {
        if i < n - 1 {
          assert init[i] == received[i];
          var j :| 0 <= j < |before| && before[j].seqNo == i + 1;
          assert out[j] == before[j];
        } else {
          assert out[|before|].seqNo == n;
        }
      }
    }
  }

  /** The non-interactive loop: every received Signal advances the sequence
      number, matched or not, and the matching ones are printed. */
  method NonInteractive(received: seq<Signal>, filter: string) returns (out: seq<Printed>)
    ensures out == Printout(received, filter)
    ensures forall j :: 0 <= j < |out| ==> Reports(out, j, received, filter)
    ensures forall j :: 0 <= j < |out| - 1 ==> out[j].seqNo < out[j + 1].seqNo
    ensures forall i :: 0 <= i < |received| && Dashboard.Matches(received[i], filter) ==>
              exists j :: 0 <= j < |out| && out[j].seqNo == i + 1
  {
    out := [];
    var i := 0;
    while i < |received|
      invariant 0 <= i <= |received|
      invariant out == Printout(received[..i], filter)
    {
      var c := received[i];
      i := i + 1;
      assert received[..i][..i - 1] == received[..i - 1];
      if Dashboard.Matches(c, filter) {
        out := out + [Printed(i, c.time, c.summary)];
      }
    }
    assert received[..i] == received;
    PrintoutFacts(received, filter);
  }

  // ---------------------------------------------------------------------------
  // The event loop
  // ---------------------------------------------------------------------------

  datatype Event = Resized(w: int, h: int) | Pressed(k: Key)

  /** A screen size the terminal can report: no negative width, at least
      one row. */
  predicate Sane(ev: Event) {
    ev.Resized? ==> ev.w >= 0 && ev.h >= 1
  }

  /** One turn of the event loop: a resize is passed to the dashboard; a key
      goes to the dashboard first, and the program quits (`r.1`) when the
      key was Escape or Ctrl+C and the dashboard did not consume it. */
  function Step(b: Dashboard.Browser, ev: Event): (r: (Dashboard.Browser, bool))
    requires Dashboard.Valid(b) && Sane(ev)
    ensures Dashboard.Valid(r.0)
    ensures ev.Resized? ==> !r.1
    ensures ev == Pressed(Escape) ==> (r.1 <==> !b.popup.visible && !b.inputFilter && !b.follow)
    ensures ev == Pressed(CtrlC) ==> r.1
    ensures ev.Pressed? && ev.k != Escape && ev.k != CtrlC ==> !r.1
  {
    match ev
    case Resized(w, h) => (Dashboard.Resize(b, w, h), false)
    case Pressed(k) =>
      var o := Dashboard.EventKey(b, k);
      (o.state, !o.handled && (k == Escape || k == CtrlC))
  }

  /** Escape from a plain view quits; Escape while following only stops
      following, and a second Escape then quits. */
  lemma EscapeTwiceQuits(b: Dashboard.Browser)
    requires Dashboard.Valid(b) && !b.popup.visible && !b.inputFilter && b.follow
    ensures !Step(b, Pressed(Escape)).1
    ensures Step(Step(b, Pressed(Escape)).0, Pressed(Escape)).1
  {
  }
}
