/** `BroadcastDownsampler`: per-client rate limiting of wire and pipe broadcasters. */
module Downsampler {
  import opened ColumnMajor
  import opened Types

  const TWO32 := 0x1_0000_0000
  const TWO64 := 0x1_0000_0000_0000_0000

  type UInt32 = n: nat | n < 0x1_0000_0000
  type UInt64 = n: nat | n < 0x1_0000_0000_0000_0000

  /** The state the predicates depend on. */
  datatype Config = Config(steps: UInt64, defaultDownsample: UInt32, clients: map<UInt32, UInt32>)

  /** The downsample in force for an endpoint. */
  function Effective(c: Config, ep: UInt32): UInt32 {
    if ep in c.clients then c.clients[ep] else c.defaultDownsample
  }

  /** Whether the current step's packet is sent to the endpoint. The divisor is a 32-bit sum: for the
      largest downsample it wraps to zero and the remainder has no value. */
  function Passes(c: Config, ep: UInt32): Option<bool> {
    var divisor := (Effective(c, ep) + 1) % TWO32;
    if divisor == 0 then Nothing else Just(c.steps % divisor == 0)
  }

  // ----- what happens to a downsampler

  datatype Event =
    | Step
    | SetClient(ep: UInt32, downsample: UInt32)
    | Disconnect(ep: UInt32)
    | OtherServerEvent

  function After(c: Config, e: Event): Config {
    match e
    case Step => c.(steps := (c.steps + 1) % TWO64)
    case SetClient(ep, d) => c.(clients := c.clients[ep := d])
    case Disconnect(ep) => c.(clients := c.clients - {ep})
    case OtherServerEvent => c
  }

  class BroadcastDownsampler {
    var stepCount: UInt64
    var defaultDownsample: UInt32
    var clientDownsamples: map<UInt32, UInt32>

    function Value(): Config
      reads this
    {
      Config(stepCount, defaultDownsample, clientDownsamples)
    }

    constructor ()
      ensures Value() == Config(0, 0, map[])
    {
      stepCount, defaultDownsample, clientDownsamples := 0, 0, map[];
    }

    method Init(defaultDownsample: UInt32)
      modifies this
      ensures Value() == old(Value()).(defaultDownsample := defaultDownsample)
    {
      this.defaultDownsample := defaultDownsample;
    }

    method GetClientDownsample(ep: UInt32) returns (d: UInt32)
      ensures d == Effective(Value(), ep)
    {
      if ep !in clientDownsamples {
        return defaultDownsample;
      }
      return clientDownsamples[ep];
    }

    method SetClientDownsample(ep: UInt32, downsample: UInt32)
      modifies this
      ensures Value() == After(old(Value()), SetClient(ep, downsample))
    {
      clientDownsamples := clientDownsamples[ep := downsample];
    }

    method BeginStep()
      modifies this
      ensures Value() == After(old(Value()), Step)
    {
      stepCount := (stepCount + 1) % TWO64;
    }

    method EndStep()
      ensures Value() == old(Value())
    {
    }

    /** Called by the wire broadcaster, with nothing when the downsampler is gone. */
    static method WirePredicate(this1: BroadcastDownsampler?, ep: UInt32) returns (r: Option<bool>)
      ensures r == if this1 == null then Just(true) else Passes(this1.Value(), ep)
    {
      if this1 == null {
        return Just(true);
      }
      var downsample := (this1.defaultDownsample + 1) % TWO32;
      if ep in this1.clientDownsamples {
        downsample := (this1.clientDownsamples[ep] + 1) % TWO32;
      }
      if downsample == 0 {
        return Nothing;
      }
      var drop := this1.stepCount % downsample == 0;
      return Just(drop);
    }

    /** Called by the pipe broadcaster; the index of the pipe endpoint does not matter. */
    static method PipePredicate(this1: BroadcastDownsampler?, ep: UInt32, index: int) returns (r: Option<bool>)
      ensures r == if this1 == null then Just(true) else Passes(this1.Value(), ep)
    {
      if this1 == null {
        return Just(true);
      }
      var downsample := (this1.defaultDownsample + 1) % TWO32;
      if ep in this1.clientDownsamples {
        downsample := (this1.clientDownsamples[ep] + 1) % TWO32;
      }
      if downsample == 0 {
        return Nothing;
      }
      var drop := this1.stepCount % downsample == 0;
      return Just(drop);
    }

    method ServerEvent(clientDisconnected: bool, ep: UInt32)
      modifies this
      ensures Value() == After(old(Value()), if clientDisconnected then Disconnect(ep) else OtherServerEvent)
    {
      if !clientDisconnected {
        return;
      }
      clientDownsamples := clientDownsamples - {ep};
    }
  }

  // ----- counting laws

  function Steps(es: seq<Event>): nat {
    if es == [] then 0 else (if es[0].Step? then 1 else 0) + Steps(es[1..])
  }

  /** The number of steps whose packet is sent to the endpoint. */
  function Sent(c: Config, es: seq<Event>, ep: UInt32): nat
    decreases es
  {
    if es == [] then 0
    else
      var c1 := After(c, es[0]);
      (if es[0].Step? && Passes(c1, ep) == Just(true) then 1 else 0) + Sent(c1, es[1..], ep)
  }

  function Final(c: Config, es: seq<Event>): Config
    decreases es
  {
    if es == [] then c else Final(After(c, es[0]), es[1..])
  }

  /** No event sets or disconnects the endpoint itself. */
  predicate Untouched(es: seq<Event>, ep: UInt32) {
    forall e | e in es :: (e.SetClient? ==> e.ep != ep) && (e.Disconnect? ==> e.ep != ep)
  }

  /** The multiples of `d` from 1 to `s`. */
  function Multiples(s: nat, d: nat): nat
    requires d > 0
  {
    s / d
  }

  lemma NextMultiple(s: nat, d: nat)
    requires d > 0
    ensures Multiples(s + 1, d) == Multiples(s, d) + if (s + 1) % d == 0 then 1 else 0
  {
    LemmaDivMod(s, d);
    var q, r := s / d, s % d;
    if r + 1 < d {
      LemmaDivModUnique(s + 1, d, q, r + 1);
    } else {
      assert d * q + d == d * (q + 1);
      LemmaDivModUnique(s + 1, d, q + 1, 0);
    }
  }

  lemma NextWindow(s: nat, d: nat)
    requires d > 0
    ensures Multiples(s + d, d) == Multiples(s, d) + 1
  {
    LemmaDivMod(s, d);
    assert d * (s / d) + d == d * (s / d + 1);
    LemmaDivModUnique(s + d, d, s / d + 1, s % d);
  }

  /** One more step sends one more packet exactly when it reaches a multiple. */
  lemma StepSends(c: Config, ep: UInt32)
    requires Effective(c, ep) < TWO32 - 1
    requires c.steps + 1 < TWO64
    ensures Multiples(c.steps + 1, Effective(c, ep) + 1)
         == Multiples(c.steps, Effective(c, ep) + 1) + if Passes(After(c, Step), ep) == Just(true) then 1 else 0
  {
    NextMultiple(c.steps, Effective(c, ep) + 1);
    assert (Effective(c, ep) + 1) % TWO32 == Effective(c, ep) + 1;
    assert (c.steps + 1) % TWO64 == c.steps + 1;
  }

  /** Whatever other clients set or disconnect, the packets sent to an endpoint are those at the multiples
      of its downsample plus one. */
  lemma {:induction false} SentAreMultiples(c: Config, es: seq<Event>, ep: UInt32)
    requires Untouched(es, ep) && Effective(c, ep) < TWO32 - 1 && c.steps + Steps(es) < TWO64
    ensures var d := Effective(c, ep) + 1;
            Sent(c, es, ep) == Multiples(c.steps + Steps(es), d) - Multiples(c.steps, d)
    ensures Effective(Final(c, es), ep) == Effective(c, ep) && Final(c, es).steps == c.steps + Steps(es)
    decreases es
  {
    hide Passes, Multiples;
    if es != [] {
      var e, c1 := es[0], After(c, es[0]);
      assert e in es && forall x | x in es[1..] :: x in es;
      SentAreMultiples(c1, es[1..], ep);
      if e.Step? {
        StepSends(c, ep);
      }
    }
  }

  /** From the start, `n` steps send exactly `n / (d + 1)` packets. */
  lemma {:induction false} SentFromStart(c: Config, es: seq<Event>, ep: UInt32)
    requires c.steps == 0 && Untouched(es, ep) && Effective(c, ep) < TWO32 - 1 && Steps(es) < TWO64
    ensures Sent(c, es, ep) == Steps(es) / (Effective(c, ep) + 1)
  {
    SentAreMultiples(c, es, ep);
    LemmaDivModUnique(0, Effective(c, ep) + 1, 0, 0);
  }

  /** Any `d + 1` consecutive steps send exactly one. */
  lemma {:induction false} OneInEveryWindow(c: Config, es: seq<Event>, ep: UInt32)
    requires Untouched(es, ep) && Effective(c, ep) < TWO32 - 1 && c.steps + Steps(es) < TWO64
    requires Steps(es) == Effective(c, ep) + 1
    ensures Sent(c, es, ep) == 1
  {
    hide Multiples;
    SentAreMultiples(c, es, ep);
    NextWindow(c.steps, Effective(c, ep) + 1);
  }

  /** The last event that concerns the endpoint: a choice it made, or its disconnection. */
  ghost predicate IsLast(es: seq<Event>, i: nat, ep: UInt32) {
    && i < |es| && (es[i] == Disconnect(ep) || (es[i].SetClient? && es[i].ep == ep))
    && Untouched(es[i + 1..], ep)
  }

  /** After any events the downsample in force for an endpoint is the last one chosen for it, if it has not
      disconnected since; the default, if it has; and the one before, if nothing concerned it. */
  lemma {:induction false} LastChoiceIsInForce(c: Config, es: seq<Event>, ep: UInt32)
    ensures forall i: nat | IsLast(es, i, ep) ::
              Effective(Final(c, es), ep) == if es[i].SetClient? then es[i].downsample else c.defaultDownsample
    ensures Untouched(es, ep) ==> Effective(Final(c, es), ep) == Effective(c, ep)
    ensures Final(c, es).defaultDownsample == c.defaultDownsample
    decreases es
  {
    hide Effective, After;
    if es != [] {
      var rest, c1 := es[1..], After(c, es[0]);
      LastChoiceIsInForce(c1, rest, ep);
      FirstEvent(c, es[0], ep);
      assert es == [es[0]] + rest;
      forall i: nat | IsLast(es, i, ep)
        ensures Effective(Final(c, es), ep) == if es[i].SetClient? then es[i].downsample else c.defaultDownsample
      {
        if i > 0 {
          assert es[i] == rest[i - 1] && es[i + 1..] == rest[i..];
          assert IsLast(rest, i - 1, ep);
        } else {
          assert es[0 + 1..] == rest;
        }
      }
    }
  }

  lemma FirstEvent(c: Config, e: Event, ep: UInt32)
    ensures After(c, e).defaultDownsample == c.defaultDownsample
    ensures Effective(After(c, e), ep)
         == if e.SetClient? && e.ep == ep then e.downsample
            else if e.Disconnect? && e.ep == ep then c.defaultDownsample
            else Effective(c, ep)
  {
  }

  /** A disconnected client is sent what a client that never chose a downsample is sent. */
  lemma DisconnectRevertsToDefault(c: Config, ep: UInt32, other: UInt32)
    ensures Effective(After(c, Disconnect(ep)), ep) == c.defaultDownsample
    ensures other !in c.clients ==> Passes(After(c, Disconnect(ep)), ep) == Passes(c, other)
    ensures other != ep ==> Passes(After(c, Disconnect(ep)), other) == Passes(c, other)
  {
  }

  /** The remainder has no value exactly for the largest downsample. */
  lemma UndefinedExactlyAtMaximum(c: Config, ep: UInt32)
    ensures Passes(c, ep).Nothing? <==> Effective(c, ep) == TWO32 - 1
  {
    if Effective(c, ep) < TWO32 - 1 {
      assert (Effective(c, ep) + 1) % TWO32 == Effective(c, ep) + 1;
    }
  }
}
