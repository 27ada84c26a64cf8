/** Time stamps packed into one word: seconds in the upper 44 bits, nanoseconds in the lower 20. */
module Time64 {

  const SEC_MASK: bv64 := 0xFFFF_FFFF_FFF0_0000
  const NANOSEC_MASK: bv64 := 0x0000_0000_000F_FFFF

  /** A protobuf time stamp: both fields are two's complement, 64 and 32 bits wide. */
  datatype Timestamp = Timestamp(seconds: bv64, nanos: bv32)

  predicate InRange(t: Timestamp)
  {
    t.seconds < 0x1000_0000_0000 && t.nanos < 0x10_0000
  }

  /** `i32 as u64` extends the sign. */
  function SignExtend(ns: bv32): bv64
  {
    if ns & 0x8000_0000 != 0 then (ns as bv64) | 0xFFFF_FFFF_0000_0000 else ns as bv64
  }

  function Pack(secs: bv64, ns: bv32): bv64
  {
    (secs << 20) | SignExtend(ns)
  }

  /** The word reads back as the two parts exactly when they fit, and is the word that the lemmas
      below speak of. */
  method FromParts(secs: bv64, ns: bv32) returns (ret: bv64)
    ensures ToTimestamp(ret) == Timestamp(secs, ns) <==> InRange(Timestamp(secs, ns))
    ensures ret == Pack(secs, ns)
  {
    hide ToTimestamp, InRange;
    TimestampRoundTripIff(Timestamp(secs, ns));
    ret := 0;
    ret := ret | secs;
    ret := ret << 20;
    ret := ret | SignExtend(ns);
  }

  function ToTimestamp(t: bv64): Timestamp
  {
    Timestamp((t & SEC_MASK) >> 20, (t & NANOSEC_MASK) as bv32)
  }

  function FromTimestamp(ts: Timestamp): bv64
  {
    Pack(ts.seconds, ts.nanos)
  }

  /** Every word survives the trip to a protobuf time stamp and back. */
  lemma WordRoundTrip(t: bv64)
    ensures FromTimestamp(ToTimestamp(t)) == t
  {
    SmallNanos((t & NANOSEC_MASK) as bv32);
    MasksRejoin(t);
  }

  lemma SmallNanos(ns: bv32)
    requires ns < 0x10_0000
    ensures SignExtend(ns) == ns as bv64 && ns as bv64 < 0x10_0000
  {
  }

  lemma MasksRejoin(t: bv64)
    ensures (t & NANOSEC_MASK) as bv32 < 0x10_0000
    ensures (((t & SEC_MASK) >> 20) << 20) | ((t & NANOSEC_MASK) as bv32) as bv64 == t
  {
  }

  /** A time stamp survives exactly when its seconds fit in 44 bits and its nanoseconds in 20: of
      the 999,999,999 nanoseconds that a protobuf time stamp may carry, only those below 1,048,576
      do. */
  lemma TimestampRoundTripIff(ts: Timestamp)
    ensures ToTimestamp(FromTimestamp(ts)) == ts <==> InRange(ts)
  {
  }

  /** Nanoseconds beyond 20 bits spill into the seconds. */
  lemma NanosSpill()
    ensures ToTimestamp(FromTimestamp(Timestamp(0, 1_048_576))) == Timestamp(1, 0)
  {
  }

  /** Negative nanoseconds extend their sign over the seconds: the upper 33 bits of the word are ones. */
  lemma NegativeNanos(ts: Timestamp)
    requires ts.nanos >= 0x8000_0000
    ensures FromTimestamp(ts) & 0xFFFF_FFFF_8000_0000 == 0xFFFF_FFFF_8000_0000
  {
    hide FromTimestamp;
    NegativeExtends(ts.nanos);
    OrKeeps(ts.seconds << 20, SignExtend(ts.nanos));
    FromTimestampIs(ts);
  }

  lemma FromTimestampIs(ts: Timestamp)
    ensures FromTimestamp(ts) == (ts.seconds << 20) | SignExtend(ts.nanos)
  {
  }

  lemma NegativeExtends(ns: bv32)
    requires ns >= 0x8000_0000
    ensures SignExtend(ns) & 0xFFFF_FFFF_8000_0000 == 0xFFFF_FFFF_8000_0000
  {
  }

  lemma OrKeeps(a: bv64, b: bv64)
    requires b & 0xFFFF_FFFF_8000_0000 == 0xFFFF_FFFF_8000_0000
    ensures (a | b) & 0xFFFF_FFFF_8000_0000 == 0xFFFF_FFFF_8000_0000
  {
  }

  predicate Earlier(a: Timestamp, b: Timestamp)
  {
    a.seconds < b.seconds || (a.seconds == b.seconds && a.nanos < b.nanos)
  }

  lemma PackEarlierSecond(a: Timestamp, b: Timestamp)
    requires InRange(a) && InRange(b) && a.seconds < b.seconds
    ensures FromTimestamp(a) < FromTimestamp(b)
  {
  }

  lemma PackEarlierNano(a: Timestamp, b: Timestamp)
    requires InRange(a) && InRange(b) && a.seconds == b.seconds && a.nanos < b.nanos
    ensures FromTimestamp(a) < FromTimestamp(b)
  {
  }

  /** Within range, an earlier time has a smaller word. */
  lemma PackKeepsOrder(a: Timestamp, b: Timestamp)
    requires InRange(a) && InRange(b) && Earlier(a, b)
    ensures FromTimestamp(a) < FromTimestamp(b)
  {
    hide FromTimestamp;
    if a.seconds < b.seconds {
      PackEarlierSecond(a, b);
    } else {
      PackEarlierNano(a, b);
    }
  }
}
