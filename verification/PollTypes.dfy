/** The readiness vocabulary shared by the two Linux poller backends. */
module PollTypes {

  /** Where a wake eventfd stops counting. */
  const EVENTFD_MAX: nat := 0xFFFF_FFFF_FFFF_FFFE

  /** Caller-facing bits. Only the first two may be registered as interests. */
  datatype Flag = Readable | Writable | Eof | Error | Unknown(bit: nat)

  /** Kernel-facing readiness bits. */
  datatype Bit = PollIn | PollOut | PollRdHup | PollHup | PollErr

  datatype PollEvent = PollEvent(token: nat, fd: int, flags: set<Flag>)

  /** Only the two registerable bits, and at least one of them. */
  predicate ValidInterests(interests: set<Flag>) {
    interests <= {Readable, Writable} && interests != {}
  }

  /** Translation of kernel readiness into caller flags (io_uring never asks for PollRdHup). */
  function FlagsOf(bits: set<Bit>): set<Flag> {
    (if PollIn in bits then {Readable} else {}) +
    (if PollOut in bits then {Writable} else {}) +
    (if PollHup in bits || PollRdHup in bits then {Eof} else {}) +
    (if PollErr in bits then {Error} else {})
  }

  /** The kernel bits watched for a set of interests, besides the always-on ones. */
  function WatchedBits(interests: set<Flag>, always: set<Bit>): set<Bit> {
    always + (if Readable in interests then {PollIn} else {}) + (if Writable in interests then {PollOut} else {})
  }

  /** The registerable interests come back as exactly the flags asked for. */
  lemma InterestsRoundTrip(interests: set<Flag>)
    requires ValidInterests(interests)
    ensures FlagsOf(WatchedBits(interests, {})) == interests
  {
  }

  /** What may be asked for: readability, writability, or both. */
  lemma InterestsAre(interests: set<Flag>)
    ensures ValidInterests(interests) <==>
      interests == {Readable} || interests == {Writable} || interests == {Readable, Writable}
  {
    if ValidInterests(interests) {
      assert interests == (if Readable in interests then {Readable} else {}) + (if Writable in interests then {Writable} else {});
    }
  }

  /** The flags of an event say what the kernel found ready, end of file on any of `eof`, and
      nothing else. */
  ghost predicate Says(flags: set<Flag>, bits: set<Bit>, eof: set<Bit>) {
    && (Readable in flags <==> PollIn in bits)
    && (Writable in flags <==> PollOut in bits)
    && (Error in flags <==> PollErr in bits)
    && (Eof in flags <==> exists b :: b in eof && b in bits)
    && (forall n :: Unknown(n) !in flags)
  }

  /** A mask watches what was asked for, no less and no more, besides the bits in `always`. */
  ghost predicate Asks(mask: set<Bit>, interests: set<Flag>, always: set<Bit>) {
    && (PollIn in mask <==> Readable in interests)
    && (PollOut in mask <==> Writable in interests)
    && (forall b | b == PollRdHup || b == PollHup || b == PollErr :: b in mask <==> b in always)
  }

  lemma FlagsSay(bits: set<Bit>)
    ensures Says(FlagsOf(bits), bits, {PollHup, PollRdHup})
    ensures Says(FlagsOf(bits - {PollRdHup}), bits, {PollHup})
  {
    assert PollHup in {PollHup} && PollRdHup in {PollHup, PollRdHup} && PollHup in {PollHup, PollRdHup};
  }

  lemma WatchedAsk(interests: set<Flag>, always: set<Bit>)
    requires PollIn !in always && PollOut !in always
    ensures Asks(WatchedBits(interests, always), interests, always)
  {
  }
}
