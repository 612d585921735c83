/** RC4 backwards: the key schedule and the generator lose nothing, and the first bytes from the identity are known. */
module Rc4Backwards {
  import opened Bytes
  import opened Rc4
  import Bits

  function Minus(a: byte, b: byte): byte { (a - b) % 256 }

  lemma PlusMinus(a: byte, b: byte)
    ensures Minus(Plus(a, b), b) == a && Minus(Plus(a, b), a) == b
  {
  }

  lemma SwappedBack(s: seq<byte>, a: nat, b: nat)
    requires a < |s| && b < |s|
    ensures Swap(Swap(s, a, b), a, b) == s && Swap(s, a, b)[b] == s[a] && Swap(s, a, b)[a] == s[b]
  {
  }

  // ----- the key schedule -----

  /** The permutation and the index that `n` turns of the key schedule started from, told from what they led to. */
  function Unscheduled(key: seq<byte>, n: nat, s: seq<byte>, j: byte): (seq<byte>, byte)
    requires key != [] && n <= 256 && |s| == 256
    decreases n
  {
    if n == 0 then (s, j)
    else
      var before := Swap(s, n - 1, j);
      Unscheduled(key, n - 1, before, Minus(Minus(j, key[(n - 1) % |key|]), before[n - 1]))
  }

  /** For every key, going back from the schedule after `n` turns leads to the identity and to zero. */
  lemma {:induction false} ScheduleIsUndone(key: seq<byte>, n: nat)
    requires key != [] && n <= 256
    ensures |Scheduled(key, n).0| == 256
    ensures Unscheduled(key, n, Scheduled(key, n).0, Scheduled(key, n).1) == (Identity(), 0)
  {
    if n > 0 {
      var (s, j) := Scheduled(key, n - 1);
      ScheduledNext(key, n - 1);
      ScheduleIsUndone(key, n - 1);
      var k := key[(n - 1) % |key|];
      SwappedBack(s, n - 1, Plus(Plus(j, s[n - 1]), k));
      PlusMinus(Plus(j, s[n - 1]), k);
      PlusMinus(j, s[n - 1]);
    }
  }

  /** What a key makes of the generator are 256 turns of it, and both indices are zero. */
  lemma KeyedIsUndone(key: seq<byte>) returns (j: byte)
    requires key != []
    ensures |Keyed(key).s| == 256 && Keyed(key).i == 0 && Keyed(key).j == 0
    ensures Unscheduled(key, 256, Keyed(key).s, j) == (Identity(), 0)
  {
    hide Scheduled, Unscheduled;
    j := Scheduled(key, 256).1;
    ScheduleIsUndone(key, 256);
  }

  // ----- the generator -----

  /** The state before a turn, told from the one after it. */
  function Previous(st: Generator): Generator {
    var s := Swap(st.s, st.i, st.j);
    State(s, Minus(st.i, 1), Minus(st.j, s[st.i]))
  }

  lemma NextIsUndone(st: Generator)
    ensures Previous(Next(st)) == st
  {
    var i := Plus(st.i, 1);
    PlusMinus(st.i, 1);
    PlusMinus(st.j, st.s[i]);
    SwappedBack(st.s, i, Plus(st.j, st.s[i]));
  }

  function Back(st: Generator, n: nat): Generator
    decreases n
  {
    if n == 0 then st else Back(Previous(st), n - 1)
  }

  /** No state is lost: from the one after any number of bytes the one before them can be told. */
  lemma {:induction false} AdvanceIsUndone(st: Generator, n: nat)
    ensures Back(Advance(st, n), n) == st
  {
    if n > 0 {
      NextIsUndone(Advance(st, n - 1));
      AdvanceIsUndone(st, n - 1);
    }
  }

  lemma FirstStates(st: Generator)
    requires st == State(Identity(), 0, 0)
    ensures Next(st) == State(Identity(), 1, 1) && KeyByte(Next(st)) == 2
    ensures Next(Next(st)) == State(Identity()[2 := 3][3 := 2], 2, 3) && KeyByte(Next(Next(st))) == 5
  {
  }

  lemma ThirdState(st: Generator)
    requires st == State(Identity()[2 := 3][3 := 2], 2, 3)
    ensures KeyByte(Next(st)) == 7
  {
  }

  /** The first three bytes of the key stream from the identity are 2, 5 and 7. */
  lemma FirstBytes(st: Generator)
    requires st == State(Identity(), 0, 0)
    ensures Processed(st, [0, 0, 0]) == [2, 5, 7]
  {
    hide Next, KeyByte, Identity;
    FirstStates(st);
    ThirdState(Next(Next(st)));
    assert Advance(st, 1) == Next(st) && Advance(st, 2) == Next(Next(st)) && Advance(st, 3) == Next(Next(Next(st)));
    XorZero(2);
    XorZero(5);
    XorZero(7);
  }

  lemma XorZero(b: byte)
    ensures Bits.XorByte(0, b) == b
  {
    Bits.XorSymmetric(b, b);
    Bits.XorUndo(b, b);
  }
}
