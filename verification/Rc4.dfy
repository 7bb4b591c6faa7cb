// The stream cipher (src/common/net_wrapper.c, lines 157-194).
module Rc4 {
  import opened Bytes
  import opened DhCrypto

  const N: int := 256

  predicate IsState(S: seq<int>) {
    |S| == N && forall k :: 0 <= k < N ==> 0 <= S[k] < N
  }

  function Swap(S: seq<int>, i: int, j: int): (S': seq<int>)
    requires IsState(S) && 0 <= i < N && 0 <= j < N
    ensures IsState(S')
  {
    S[i := S[j]][j := S[i]]
  }

  function Identity(): seq<int> {
    seq(N, k => k)
  }

  // Round k reads one character of the key, going round and round it.
  function KeyAt(key: string, k: nat): (c: int)
    requires UsableKey(key)
    ensures 0 < c < 128
  {
    key[k % |key|] as int
  }

  // The state array and index j after n rounds of key scheduling.
  function Schedule(key: string, n: nat): (r: (seq<int>, int))
    requires UsableKey(key) && n <= N
    ensures IsState(r.0) && 0 <= r.1 < N
  {
    if n == 0 then (Identity(), 0)
    else
      var (S, j) := Schedule(key, n - 1);
      var j' := (j + S[n - 1] + KeyAt(key, n - 1)) % N;
      (Swap(S, n - 1, j'), j')
  }

  datatype Generator = Generator(S: seq<int>, i: int, j: int)

  predicate Valid(gen: Generator) {
    IsState(gen.S) && 0 <= gen.i < N && 0 <= gen.j < N
  }

  function Step(gen: Generator): (next: Generator)
    requires Valid(gen)
    ensures Valid(next)
  {
    var i := (gen.i + 1) % N;
    var j := (gen.j + gen.S[i]) % N;
    Generator(Swap(gen.S, i, j), i, j)
  }

  // The generator after n output bytes.
  function After(key: string, n: nat): (gen: Generator)
    requires UsableKey(key)
    ensures Valid(gen)
  {
    if n == 0 then Generator(Schedule(key, N).0, 0, 0) else Step(After(key, n - 1))
  }

  function Output(gen: Generator): byte
    requires Valid(gen)
  {
    gen.S[(gen.S[gen.i] + gen.S[gen.j]) % N]
  }

  // The n-th byte of the keystream. It depends on the key and the position alone.
  function KeyByte(key: string, n: nat): byte
    requires UsableKey(key)
  {
    Output(After(key, n + 1))
  }

  lemma KeyByteFromGenerator(key: string, n: nat)
    requires UsableKey(key)
    ensures After(key, n + 1) == Step(After(key, n)) && KeyByte(key, n) == Output(Step(After(key, n)))
  {}

  function Crypt(data: seq<byte>, key: string): (r: seq<byte>)
    requires UsableKey(key)
    ensures |r| == |data|
  {
    seq(|data|, n requires 0 <= n < |data| => Xor(data[n], KeyByte(key, n)))
  }

  method SwapEntries(S: array<int>, i: int, j: int)
    requires IsState(S[..]) && 0 <= i < N && 0 <= j < N
    modifies S
    ensures S[..] == Swap(old(S[..]), i, j)
  {
    var temp := S[i];
    S[i] := S[j];
    S[j] := temp;
  }

  method InitState(S: array<int>, key: string)
    requires UsableKey(key) && S.Length == N
    modifies S
    ensures S[..] == Schedule(key, N).0
  {
    for i := 0 to N
      invariant forall k :: 0 <= k < i ==> S[k] == k
    {
      S[i] := i;
    }
    assert S[..] == Identity();
    var j := 0;
    for i := 0 to N
      invariant S[..] == Schedule(key, i).0 && j == Schedule(key, i).1
    {
      assert KeyAt(key, i) == key[i % |key|] as int;
      j := (j + S[i] + key[i % |key|] as int) % N;
      SwapEntries(S, i, j);
    }
  }

  // One round of the generator: the next state and its output byte.
  method NextByte(S: array<int>, i: int, j: int) returns (i': int, j': int, k: byte)
    requires Valid(Generator(S[..], i, j))
    modifies S
    ensures Generator(S[..], i', j') == Step(Generator(old(S[..]), i, j))
    ensures k == Output(Generator(S[..], i', j'))
  {
    i' := (i + 1) % N;
    j' := (j + S[i']) % N;
    SwapEntries(S, i', j');
    k := S[(S[i'] + S[j']) % N];
  }

  lemma CryptGrows(data: seq<byte>, key: string, n: nat)
    requires UsableKey(key) && n < |data|
    ensures Crypt(data[..n + 1], key) == Crypt(data[..n], key) + [Xor(data[n], KeyByte(key, n))]
  {}

  // Encrypts or decrypts the first len bytes in place.
  method Rc4Crypt(data: array<byte>, len: nat, key: string)
    requires UsableKey(key) && len <= data.Length
    modifies data
    ensures data[..len] == Crypt(old(data[..len]), key)
    ensures data[len..] == old(data[len..])
  {
    ghost var plain := data[..];
    var S := new int[N];
    InitState(S, key);
    var i, j := 0, 0;
    for n := 0 to len
      invariant Generator(S[..], i, j) == After(key, n)
      invariant data[..n] == Crypt(plain[..n], key)
      invariant data[n..] == plain[n..]
    {
      var k;
      KeyByteFromGenerator(key, n);
      i, j, k := NextByte(S, i, j);
      CryptGrows(plain, key, n);
      assert data[n] == data[n..][0];
      data[n] := Xor(data[n], k);
      assert data[..n + 1] == data[..n] + [data[n]];
      assert data[n + 1..] == plain[n..][1..];
    }
  }

  // ---------------------------------------------------------------------------
  // Properties
  // ---------------------------------------------------------------------------

  // Applying the cipher twice with the same key restores the data.
  lemma CryptIsInvolution(data: seq<byte>, key: string)
    requires UsableKey(key)
    ensures Crypt(Crypt(data, key), key) == data
  {
    forall n | 0 <= n < |data|
      ensures Crypt(Crypt(data, key), key)[n] == data[n]
    {
      XorTwice(data[n], KeyByte(key, n));
    }
  }

  // Encrypting a prefix gives the prefix of the encryption.
  lemma CryptOfPrefix(data: seq<byte>, more: seq<byte>, key: string)
    requires UsableKey(key)
    ensures Crypt(data + more, key)[..|data|] == Crypt(data, key)
  {}

  // The keystream does not depend on the data.
  lemma KeystreamIgnoresData(a: seq<byte>, b: seq<byte>, key: string, n: nat)
    requires UsableKey(key) && n < |a| && n < |b|
    ensures Xor(a[n], Crypt(a, key)[n]) == Xor(b[n], Crypt(b, key)[n])
  {
    var k := KeyByte(key, n);
    XorTwice(a[n], k);
    XorTwice(b[n], k);
  }

  // ---------------------------------------------------------------------------
  // The key
  // ---------------------------------------------------------------------------

  // What n rounds of scheduling leave depends on the characters they read alone.
  lemma {:induction false} ScheduleReadsKey(a: string, b: string, n: nat)
    requires UsableKey(a) && UsableKey(b) && n <= N
    requires forall k :: 0 <= k < n ==> KeyAt(a, k) == KeyAt(b, k)
    ensures Schedule(a, n) == Schedule(b, n)
  {
    hide KeyAt, Swap;
    if n > 0 {
      ScheduleReadsKey(a, b, n - 1);
      assert KeyAt(a, n - 1) == KeyAt(b, n - 1);
    }
  }

  lemma AddedKeysDiffer(sum: int, a: int, b: int)
    requires 0 < a < 128 && 0 < b < 128 && a != b
    ensures (sum + a) % N != (sum + b) % N
  {
    var p, q := (sum + a) / N, (sum + b) / N;
    assert (sum + a) % N - (sum + b) % N == a - b - N * (p - q);
  }

  // Every character enters: two keys that first differ in what round n reads have equal
  // schedules before that round, and different indices j after it.
  lemma KeyEntersSchedule(a: string, b: string, n: nat)
    requires UsableKey(a) && UsableKey(b) && n < 256
    requires (forall k :: 0 <= k < n ==> KeyAt(a, k) == KeyAt(b, k)) && KeyAt(a, n) != KeyAt(b, n)
    ensures Schedule(a, n) == Schedule(b, n) && Schedule(a, n + 1).1 != Schedule(b, n + 1).1
  {
    hide KeyAt, Swap;
    ScheduleReadsKey(a, b, n);
    var (S, j) := Schedule(a, n);
    AddedKeysDiffer(j + S[n], KeyAt(a, n), KeyAt(b, n));
  }

  lemma KeyAtInside(key: string, k: nat)
    requires UsableKey(key) && k < |key|
    ensures KeyAt(key, k) == key[k] as int
  {}

  // In particular a character inside both keys.
  lemma KeyCharacterEnters(a: string, b: string, n: nat)
    requires UsableKey(a) && UsableKey(b) && n < |a| && n < |b| && n < 256
    requires a[..n] == b[..n] && a[n] != b[n]
    ensures Schedule(a, n) == Schedule(b, n) && Schedule(a, n + 1).1 != Schedule(b, n + 1).1
  {
    hide Schedule, KeyAt;
    forall k | 0 <= k < n
      ensures KeyAt(a, k) == KeyAt(b, k)
    {
      KeyAtInside(a, k);
      KeyAtInside(b, k);
      assert a[k] == a[..n][k] == b[..n][k] == b[k];
    }
    KeyAtInside(a, n);
    KeyAtInside(b, n);
    KeyEntersSchedule(a, b, n);
  }

  // ---------------------------------------------------------------------------
  // The state
  // ---------------------------------------------------------------------------

  predicate Distinct(S: seq<int>) {
    forall k, l :: 0 <= k < l < |S| ==> S[k] != S[l]
  }

  lemma SwapKeepsDistinct(S: seq<int>, i: int, j: int)
    requires IsState(S) && Distinct(S) && 0 <= i < N && 0 <= j < N
    ensures Distinct(Swap(S, i, j))
  {}

  lemma {:induction false} ScheduleIsDistinct(key: string, n: nat)
    requires UsableKey(key) && n <= N
    ensures Distinct(Schedule(key, n).0)
  {
    if n > 0 {
      ScheduleIsDistinct(key, n - 1);
      SwapKeepsDistinct(Schedule(key, n - 1).0, n - 1, Schedule(key, n).1);
    }
  }

  lemma {:induction false} AfterIsDistinct(key: string, n: nat)
    requires UsableKey(key)
    ensures Distinct(After(key, n).S)
  {
    if n > 0 {
      AfterIsDistinct(key, n - 1);
      SwapKeepsDistinct(After(key, n - 1).S, After(key, n).i, After(key, n).j);
    } else {
      ScheduleIsDistinct(key, N);
    }
  }

  ghost function Below(n: nat): (r: set<int>)
    ensures forall x :: x in r <==> 0 <= x < n
    ensures |r| == n
  {
    if n == 0 then {} else Below(n - 1) + {n - 1}
  }

  lemma {:induction false} Pigeonhole(S: seq<int>, values: set<int>)
    requires Distinct(S) && forall k :: 0 <= k < |S| ==> S[k] in values
    ensures |S| <= |values|
  {
    if S != [] {
      var n := |S| - 1;
      Pigeonhole(S[..n], values - {S[n]});
    }
  }

  // The state is a permutation of 0..255 after any number of outputs: no value occurs
  // twice, so none is missing.
  lemma StateIsPermutation(key: string, n: nat, v: int)
    requires UsableKey(key) && 0 <= v < N
    ensures Distinct(After(key, n).S) && v in After(key, n).S
  {
    AfterIsDistinct(key, n);
    if v !in After(key, n).S {
      Pigeonhole(After(key, n).S, Below(N) - {v});
    }
  }
}
