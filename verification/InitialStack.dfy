/** The initial process stack that sched_new_elf_process of src/kernel/sched.c builds, and
    the start-up code that reads it (System V AMD64 psABI, section 3.4.1). */
module InitialStack {
  import opened Basics

  const WORD_LIMIT: nat := 0x1_0000_0000_0000_0000

  const AT_ENTRY: nat := 10
  const AT_PHDR: nat := 20
  const AT_PHENT: nat := 21
  const AT_PHNUM: nat := 22

  datatype Auxval = Auxval(entry: nat, phdr: nat, phent: nat, phnum: nat)

  // ----- Words and strings as bytes -------------------------------------------------

  function Enc(w: nat, n: nat): (b: seq<Byte>)
    ensures |b| == n
  {
    if n == 0 then [] else [w % 256] + Enc(w / 256, n - 1)
  }

  function Dec(b: seq<Byte>): nat
  {
    if b == [] then 0 else b[0] + 256 * Dec(b[1..])
  }

  function Pow256(n: nat): (p: nat)
    ensures p > 0
  {
    if n == 0 then 1 else 256 * Pow256(n - 1)
  }

  lemma {:induction false} DecEnc(w: nat, n: nat)
    requires w < Pow256(n)
    ensures Dec(Enc(w, n)) == w
  {
    if n > 0 {
      DecEnc(w / 256, n - 1);
      assert Enc(w, n)[1..] == Enc(w / 256, n - 1);
    }
  }

  lemma WordRoundTrip(w: nat)
    requires w < WORD_LIMIT
    ensures Dec(Enc(w, 8)) == w
  {
    assert Pow256(4) == 0x1_0000_0000;
    assert Pow256(8) == WORD_LIMIT;
    DecEnc(w, 8);
  }

  /** Words one after the other, each least significant byte first. */
  function Words(ws: seq<nat>): (b: seq<Byte>)
    ensures |b| == 8 * |ws|
  {
    if ws == [] then [] else Enc(ws[0], 8) + Words(ws[1..])
  }

  lemma {:induction false} WordsConcat(a: seq<nat>, b: seq<nat>)
    ensures Words(a + b) == Words(a) + Words(b)
  {
    if a == [] {
      assert a + b == b;
    } else {
      assert (a + b)[1..] == a[1..] + b;
      WordsConcat(a[1..], b);
    }
  }

  type Str = s: seq<Byte> | 0 !in s

  /** Space the first `k` strings take, with their terminators. */
  function Space(strs: seq<Str>, k: nat): nat
    requires k <= |strs|
  {
    if k == 0 then 0 else Space(strs, k - 1) + |strs[k - 1]| + 1
  }

  lemma {:induction false} SpaceGrows(strs: seq<Str>, j: nat, k: nat)
    requires j <= k <= |strs|
    ensures Space(strs, j) <= Space(strs, k)
    decreases k
  {
    if j < k {
      SpaceGrows(strs, j, k - 1);
    }
  }

  /** The first `k` strings pushed one below the other: the last of them is lowest. */
  function Pushed(strs: seq<Str>, k: nat): (b: seq<Byte>)
    requires k <= |strs|
    ensures |b| == Space(strs, k)
  {
    if k == 0 then [] else strs[k - 1] + [0] + Pushed(strs, k - 1)
  }

  /** Where the first `k` strings end up when they are pushed from address `top` down. */
  function Pointers(strs: seq<Str>, top: nat, k: nat): (p: seq<nat>)
    requires k <= |strs| && Space(strs, k) <= top
    ensures |p| == k
  {
    if k == 0 then [] else Pointers(strs, top, k - 1) + [top - Space(strs, k)]
  }

  lemma {:induction false} PointerAt(strs: seq<Str>, top: nat, k: nat, i: nat)
    requires i < k <= |strs| && Space(strs, k) <= top
    ensures Space(strs, i + 1) <= Space(strs, k) && Pointers(strs, top, k)[i] == top - Space(strs, i + 1)
  {
    if i + 1 < k {
      PointerAt(strs, top, k - 1, i);
    }
  }

  // ----- The builder ------------------------------------------------------------------

  /** `m` with the bytes `b` at `at`. */
  function Store(m: seq<Byte>, at: nat, b: seq<Byte>): (m': seq<Byte>)
    requires at + |b| <= |m|
    ensures |m'| == |m|
  {
    m[..at] + b + m[at + |b|..]
  }

  lemma StoreGrows(m: seq<Byte>, at: nat, b: seq<Byte>, c: Byte)
    requires at + |b| + 1 <= |m|
    ensures Store(m, at, b)[at + |b| := c] == Store(m, at, b + [c])
  {
  }

  method StoreBytes(mem: array<Byte>, at: nat, b: seq<Byte>)
    requires at + |b| <= mem.Length
    modifies mem
    ensures mem[..] == Store(old(mem[..]), at, b)
  {
    ghost var m := mem[..];
    assert Store(m, at, b[..0]) == m;
    for i := 0 to |b|
      invariant mem[..] == Store(m, at, b[..i])
    {
      StoreGrows(m, at, b[..i], b[i]);
      assert b[..i] + [b[i]] == b[..i + 1];
      mem[at + i] := b[i];
    }
    assert b[..|b|] == b;
  }

  method StoreWord(mem: array<Byte>, at: nat, w: nat)
    requires at + 8 <= mem.Length
    modifies mem
    ensures mem[..] == Store(old(mem[..]), at, Enc(w, 8))
  {
    StoreBytes(mem, at, Enc(w, 8));
  }

  /** Push one string with its terminator. */
  method PushString(mem: array<Byte>, top: nat, s: Str) returns (stack: nat)
    requires |s| + 1 <= top <= mem.Length
    modifies mem
    ensures stack == top - (|s| + 1) && mem[..][stack..] == s + [0] + old(mem[..])[top..]
  {
    stack := top - (|s| + 1);
    StoreBytes(mem, stack, s + [0]);
  }

  /** Push all strings, each below the one before. */
  method PushStrings(mem: array<Byte>, top: nat, strs: seq<Str>) returns (stack: nat)
    requires Space(strs, |strs|) <= top <= mem.Length
    modifies mem
    ensures stack == top - Space(strs, |strs|) && mem[..][stack..] == Pushed(strs, |strs|) + old(mem[..])[top..]
  {
    stack := top;
    ghost var tail := mem[..][top..];
    for i := 0 to |strs|
      invariant stack + Space(strs, i) == top && mem[..][stack..] == Pushed(strs, i) + tail
    {
      SpaceGrows(strs, i + 1, |strs|);
      stack := PushString(mem, stack, strs[i]);
      Assoc(strs[i] + [0], Pushed(strs, i), tail);
    }
  }

  lemma Assoc<T>(a: seq<T>, b: seq<T>, c: seq<T>)
    ensures a + (b + c) == a + b + c
  {
  }

  lemma Prepend(a: seq<nat>, ws: seq<nat>, tail: seq<Byte>)
    ensures Words(a) + (Words(ws) + tail) == Words(a + ws) + tail
  {
    WordsConcat(a, ws);
    Assoc(Words(a), Words(ws), tail);
  }

  /** `*(--stack) = w`: `ws` are the words pushed so far, `tail` the bytes above them. */
  method PushWord(mem: array<Byte>, top: nat, w: nat, ghost ws: seq<nat>, ghost tail: seq<Byte>) returns (stack: nat)
    requires 8 <= top <= mem.Length && mem[..][top..] == Words(ws) + tail
    modifies mem
    ensures stack == top - 8 && mem[..][stack..] == Words([w] + ws) + tail
  {
    stack := top - 8;
    StoreWord(mem, stack, w);
    OneWord(w);
    assert mem[..][stack..] == Words([w]) + (Words(ws) + tail);
    Prepend([w], ws, tail);
  }

  /** `stack -= 2; *stack = key; *(stack + 1) = value`. */
  method PushPair(mem: array<Byte>, top: nat, key: nat, value: nat, ghost ws: seq<nat>, ghost tail: seq<Byte>)
    returns (stack: nat)
    requires 16 <= top <= mem.Length && mem[..][top..] == Words(ws) + tail
    modifies mem
    ensures stack == top - 16 && mem[..][stack..] == Words([key, value] + ws) + tail
  {
    stack := top - 16;
    StoreWord(mem, stack, key);
    StoreWord(mem, stack + 8, value);
    TwoWords(key, value);
    StoreTwice(old(mem[..]), stack, Enc(key, 8), Enc(value, 8));
    Prepend([key, value], ws, tail);
  }

  lemma StoreTwice(m: seq<Byte>, at: nat, a: seq<Byte>, b: seq<Byte>)
    requires at + |a| + |b| <= |m|
    ensures Store(Store(m, at, a), at + |a|, b)[at..] == a + b + m[at + |a| + |b|..]
  {
  }

  lemma OneWord(w: nat)
    ensures Words([w]) == Enc(w, 8)
  {
  }

  lemma TwoWords(v: nat, w: nat)
    ensures Words([v, w]) == Enc(v, 8) + Enc(w, 8)
  {
    OneWord(w);
    assert [v, w][1..] == [w];
  }

  /** Room for one pointer per string, then the pointers, lowest first. */
  method PushPointers(mem: array<Byte>, top: nat, strs: seq<Str>, address: nat, ghost ws: seq<nat>,
                      ghost tail: seq<Byte>)
    returns (stack: nat, sa: nat)
    requires 8 * |strs| <= top <= mem.Length && Space(strs, |strs|) <= address && mem[..][top..] == Words(ws) + tail
    modifies mem
    ensures stack == top - 8 * |strs| && sa == address - Space(strs, |strs|)
    ensures mem[..][stack..] == Words(Pointers(strs, address, |strs|) + ws) + tail
  {
    stack, sa := StorePointers(mem, top, strs, address);
    Prepend(Pointers(strs, address, |strs|), ws, tail);
  }

  method StorePointers(mem: array<Byte>, top: nat, strs: seq<Str>, address: nat) returns (stack: nat, sa: nat)
    requires 8 * |strs| <= top <= mem.Length && Space(strs, |strs|) <= address
    modifies mem
    ensures stack == top - 8 * |strs| && sa == address - Space(strs, |strs|)
    ensures mem[..][stack..] == Words(Pointers(strs, address, |strs|)) + old(mem[..])[top..]
  {
    stack, sa := top - 8 * |strs|, address;
    ghost var m0, ps := mem[..], Pointers(strs, address, |strs|);
    NoneStored(m0, stack, ps);
    for i := 0 to |strs|
      invariant sa + Space(strs, i) == address
      invariant Stored(mem[..], m0, stack, ps, i)
    {
      PointerAt(strs, address, |strs|, i);
      sa := sa - (|strs[i]| + 1);
      StorePointer(mem, stack, i, sa, ps, m0);
    }
    AllStored(mem[..], m0, stack, ps);
  }

  /** The first `i` words of `ps` stand at `stack`, everything above them is as in `m0`. */
  ghost predicate Stored(m: seq<Byte>, m0: seq<Byte>, stack: nat, ps: seq<nat>, i: nat)
  {
    && i <= |ps| && stack + 8 * i <= |m| == |m0|
    && m[stack..] == Words(ps[..i]) + m0[stack + 8 * i..]
  }

  lemma NoneStored(m: seq<Byte>, stack: nat, ps: seq<nat>)
    requires stack <= |m|
    ensures Stored(m, m, stack, ps, 0)
  {
  }

  lemma AllStored(m: seq<Byte>, m0: seq<Byte>, stack: nat, ps: seq<nat>)
    requires Stored(m, m0, stack, ps, |ps|)
    ensures m[stack..] == Words(ps) + m0[stack + 8 * |ps|..]
  {
    assert ps[..|ps|] == ps;
  }

  method StorePointer(mem: array<Byte>, stack: nat, i: nat, w: nat, ghost ps: seq<nat>, ghost m0: seq<Byte>)
    requires i < |ps| && w == ps[i] && |m0| == mem.Length && stack + 8 * (i + 1) <= mem.Length
    requires Stored(mem[..], m0, stack, ps, i)
    modifies mem
    ensures Stored(mem[..], m0, stack, ps, i + 1)
  {
    WordStored(mem[..], m0, stack, stack + 8 * i, Words(ps[..i]), Enc(w, 8));
    StoreWord(mem, stack + 8 * i, w);
    WordsConcat(ps[..i], [w]);
    assert ps[..i] + [w] == ps[..i + 1];
    OneWord(w);
  }

  /** A word stored right behind `w` extends it. */
  lemma WordStored(m: seq<Byte>, m0: seq<Byte>, stack: nat, at: nat, w: seq<Byte>, e: seq<Byte>)
    requires stack <= at && at + 8 <= |m| == |m0| && |w| == at - stack && |e| == 8
    requires m[stack..] == w + m0[at..]
    ensures Store(m, at, e)[stack..] == (w + e) + m0[at + 8..]
  {
    var m' := Store(m, at, e);
    assert m[at + 8..] == m0[at + 8..] by {
      assert m[at + 8..] == m[stack..][at + 8 - stack..];
    }
    assert m[stack..at] == w by {
      assert m[stack..at] == m[stack..][..at - stack];
    }
    assert m'[stack..] == m[stack..at] + e + m[at + 8..];
  }

  // ----- The whole stack -----------------------------------------------------------------

  /** The auxiliary vector: pairs of a key and a value, lowest first, ended by a zero pair. */
  function AuxWords(aux: Auxval): seq<nat>
  {
    [AT_PHNUM, aux.phnum, AT_PHENT, aux.phent, AT_PHDR, aux.phdr, AT_ENTRY, aux.entry, 0, 0]
  }

  /** Room for all strings: the environment's are pushed first, the arguments' below them. */
  function StringSpace(argv: seq<Str>, envp: seq<Str>): nat
  {
    Space(envp, |envp|) + Space(argv, |argv|)
  }

  /** The bytes of all strings. */
  function StringArea(argv: seq<Str>, envp: seq<Str>): (b: seq<Byte>)
    ensures |b| == StringSpace(argv, envp)
  {
    Pushed(argv, |argv|) + Pushed(envp, |envp|)
  }

  function ArgPointers(argv: seq<Str>, envp: seq<Str>): (p: seq<nat>)
    requires StringSpace(argv, envp) <= USER_STACK_TOP
    ensures |p| == |argv|
  {
    Pointers(argv, USER_STACK_TOP - Space(envp, |envp|), |argv|)
  }

  function EnvPointers(argv: seq<Str>, envp: seq<Str>): (p: seq<nat>)
    requires StringSpace(argv, envp) <= USER_STACK_TOP
    ensures |p| == |envp|
  {
    Pointers(envp, USER_STACK_TOP, |envp|)
  }

  /** The words between the stack pointer and the strings. */
  function HeaderWords(argv: seq<Str>, envp: seq<Str>, aux: Auxval): (ws: seq<nat>)
    requires StringSpace(argv, envp) <= USER_STACK_TOP
    ensures |ws| == 13 + |argv| + |envp|
  {
    [|argv|] + (ArgPointers(argv, envp) + ([0] + (EnvPointers(argv, envp) + ([0] + AuxWords(aux)))))
  }

  /** The bytes pushed so that the words below end on a 16-byte boundary. */
  function PaddingWord(n: nat): nat
  {
    if (n + 1) % 2 == 1 then 8 else 0
  }

  /** Everything fits between the bottom of the stack and its top. */
  predicate Fits(argv: seq<Str>, envp: seq<Str>)
  {
    && StringSpace(argv, envp) <= STACK_SIZE
    && 8 * (13 + |argv| + |envp|) + PaddingWord(|argv| + |envp|) <= (STACK_SIZE - StringSpace(argv, envp)) / 16 * 16
  }

  /** The strings, then down to a 16-byte boundary, and one word more when the words to come are odd. */
  method PushStringArea(mem: array<Byte>, argv: seq<Str>, envp: seq<Str>) returns (stack: nat, ghost gap: seq<Byte>)
    requires mem.Length == STACK_SIZE && Fits(argv, envp)
    modifies mem
    ensures 8 * (13 + |argv| + |envp|) <= stack <= STACK_SIZE && (stack - 8 * (13 + |argv| + |envp|)) % 16 == 0
    ensures mem[..][stack..] == gap + StringArea(argv, envp) && |gap| < 24
  {
    stack := STACK_SIZE;
    stack := PushStrings(mem, stack, envp);
    assert mem[..][stack..] == Pushed(envp, |envp|);
    stack := PushStrings(mem, stack, argv);
    ghost var low := stack;
    stack := stack - stack % 16;
    if (|argv| + |envp| + 1) % 2 == 1 {
      stack := stack - 8;
    }
    AlignedRoom(low, |argv| + |envp|);
    gap := mem[..][stack..low];
    SplitAt(mem[..], stack, low);
  }

  lemma AlignedRoom(low: nat, n: nat)
    requires 8 * (13 + n) + PaddingWord(n) <= low / 16 * 16
    ensures var s := low - low % 16 - PaddingWord(n);
      8 * (13 + n) <= s <= low < s + 24 && (s - 8 * (13 + n)) % 16 == 0
  {
    var k, h := low / 16, (14 + n) / 2;
    assert low == 16 * k + low % 16;
    assert 8 * (13 + n) + PaddingWord(n) == 16 * h;
    SixteenTimes(k, h);
  }

  lemma SixteenTimes(k: nat, h: nat)
    requires h <= k
    ensures (16 * k - 16 * h) % 16 == 0
  {
    assert 16 * k - 16 * h == 16 * (k - h);
  }

  lemma SplitAt<T>(m: seq<T>, i: nat, j: nat)
    requires i <= j <= |m|
    ensures m[i..] == m[i..j] + m[j..]
  {
  }

  method PushAux(mem: array<Byte>, top: nat, aux: Auxval, ghost tail: seq<Byte>) returns (stack: nat)
    requires 80 <= top <= mem.Length && mem[..][top..] == tail
    modifies mem
    ensures stack == top - 80 && mem[..][stack..] == Words(AuxWords(aux)) + tail
  {
    assert Words([]) + tail == tail;
    stack := PushPair(mem, top, 0, 0, [], tail);
    stack := PushPair(mem, stack, AT_ENTRY, aux.entry, [0, 0] + [], tail);
    assert [AT_ENTRY, aux.entry] + ([0, 0] + []) == AuxWords(aux)[6..];
    stack := PushPair(mem, stack, AT_PHDR, aux.phdr, AuxWords(aux)[6..], tail);
    assert [AT_PHDR, aux.phdr] + AuxWords(aux)[6..] == AuxWords(aux)[4..];
    stack := PushPair(mem, stack, AT_PHENT, aux.phent, AuxWords(aux)[4..], tail);
    assert [AT_PHENT, aux.phent] + AuxWords(aux)[4..] == AuxWords(aux)[2..];
    stack := PushPair(mem, stack, AT_PHNUM, aux.phnum, AuxWords(aux)[2..], tail);
    assert [AT_PHNUM, aux.phnum] + AuxWords(aux)[2..] == AuxWords(aux);
  }

  /** Everything below the strings. */
  method PushHeader(mem: array<Byte>, top: nat, argv: seq<Str>, envp: seq<Str>, aux: Auxval, ghost tail: seq<Byte>)
    returns (stack: nat)
    requires 8 * (13 + |argv| + |envp|) <= top <= mem.Length && mem[..][top..] == tail
    requires StringSpace(argv, envp) <= USER_STACK_TOP
    modifies mem
    ensures stack == top - 8 * (13 + |argv| + |envp|)
    ensures mem[..][stack..] == Words(HeaderWords(argv, envp, aux)) + tail
  {
    stack := PushAux(mem, top, aux, tail);
    var sa := USER_STACK_TOP;
    stack := PushWord(mem, stack, 0, AuxWords(aux), tail);
    ghost var env := [0] + AuxWords(aux);
    stack, sa := PushPointers(mem, stack, envp, sa, env, tail);
    env := EnvPointers(argv, envp) + env;
    stack := PushWord(mem, stack, 0, env, tail);
    ghost var args := [0] + env;
    stack, sa := PushPointers(mem, stack, argv, sa, args, tail);
    stack := PushWord(mem, stack, |argv|, ArgPointers(argv, envp) + args, tail);
  }

  lemma TopAligned(s: nat)
    requires s <= STACK_SIZE && s % 16 == 0
    ensures (USER_STACK_TOP - (STACK_SIZE - s)) % 16 == 0
  {
  }

  /** The stack of a new process: argc, argv, envp, the auxiliary vector, and the strings on top. */
  method BuildStack(mem: array<Byte>, argv: seq<Str>, envp: seq<Str>, aux: Auxval)
    returns (rsp: nat, ghost stack: nat)
    requires mem.Length == STACK_SIZE && Fits(argv, envp)
    requires InWord(aux)
    modifies mem
    ensures stack <= STACK_SIZE && rsp == USER_STACK_TOP - (STACK_SIZE - stack) && rsp % 16 == 0
    ensures Recovers(mem[..][stack..], rsp, argv, envp, aux)
    ensures USER_STACK_TOP - rsp < 8 * (13 + |argv| + |envp|) + StringSpace(argv, envp) + 24
  {
    var s;
    ghost var gap;
    s, gap := PushStringArea(mem, argv, envp);
    assert |mem[..][s..]| == |gap| + StringSpace(argv, envp);
    s := PushHeader(mem, s, argv, envp, aux, gap + StringArea(argv, envp));
    rsp := USER_STACK_TOP - (STACK_SIZE - s);
    stack := s;
    TopAligned(s);
    assert rsp + 8 * (13 + |argv| + |envp|) + |gap| + StringSpace(argv, envp) == USER_STACK_TOP;
    StackParses(argv, envp, aux, gap, rsp);
  }

  // ----- The start-up code ---------------------------------------------------------------

  datatype Startup = Startup(argc: nat, argv: seq<Str>, envp: seq<Str>, auxv: seq<(nat, nat)>)

  predicate InWord(aux: Auxval)
  {
    aux.entry < WORD_LIMIT && aux.phdr < WORD_LIMIT && aux.phent < WORD_LIMIT && aux.phnum < WORD_LIMIT
  }

  function AuxPairs(aux: Auxval): seq<(nat, nat)>
  {
    [(AT_PHNUM, aux.phnum), (AT_PHENT, aux.phent), (AT_PHDR, aux.phdr), (AT_ENTRY, aux.entry)]
  }

  function WordAt(img: seq<Byte>, at: nat): nat
    requires at + 8 <= |img|
  {
    Dec(img[at..at + 8])
  }

  /** The words from `at` to the next zero word. */
  function ReadPointers(img: seq<Byte>, at: nat): (r: Option<seq<nat>>)
    decreases |img| - at
  {
    if at + 8 > |img| then None
    else if WordAt(img, at) == 0 then Some([])
    else match ReadPointers(img, at + 8)
      case None => None
      case Some(rest) => Some([WordAt(img, at)] + rest)
  }

  /** The pairs of words from `at` to the pair with key zero. */
  function ReadAux(img: seq<Byte>, at: nat): (r: Option<seq<(nat, nat)>>)
    decreases |img| - at
  {
    if at + 16 > |img| then None
    else if WordAt(img, at) == 0 then Some([])
    else match ReadAux(img, at + 16)
      case None => None
      case Some(rest) => Some([(WordAt(img, at), WordAt(img, at + 8))] + rest)
  }

  /** Index of the first zero byte from `at` on. */
  function StringEnd(img: seq<Byte>, at: nat): (e: nat)
    ensures at <= |img| ==> at <= e <= |img| && (forall k :: at <= k < e ==> img[k] != 0) && (e < |img| ==> img[e] == 0)
    decreases |img| - at
  {
    if at >= |img| || img[at] == 0 then at else StringEnd(img, at + 1)
  }

  /** The string at `at`: its bytes up to the first zero byte. */
  function StringAt(img: seq<Byte>, at: nat): (r: Option<Str>)
  {
    if at >= |img| || StringEnd(img, at) == |img| then None else Some(img[at..StringEnd(img, at)])
  }

  /** The strings that pointers into the image, which starts at address `base`, point at. */
  function ReadStrings(img: seq<Byte>, base: nat, ps: seq<nat>): (r: Option<seq<Str>>)
  {
    if ps == [] then Some([])
    else if ps[0] < base then None
    else
      var s, rest := StringAt(img, ps[0] - base), ReadStrings(img, base, ps[1..]);
      if s.None? || rest.None? then None else Some([s.value] + rest.value)
  }

  /** What a program finds above its initial stack pointer `rsp`. */
  function Parse(img: seq<Byte>, rsp: nat): (r: Option<Startup>)
  {
    if |img| < 8 then None else
    var args := ReadPointers(img, 8);
    if args.None? then None else
    var env := ReadPointers(img, 8 * (2 + |args.value|));
    if env.None? then None else
    ParseStrings(img, rsp, args.value, env.value)
  }

  function ParseStrings(img: seq<Byte>, rsp: nat, args: seq<nat>, env: seq<nat>): (r: Option<Startup>)
    requires |img| >= 8
  {
    var argv, envp, auxv :=
      ReadStrings(img, rsp, args), ReadStrings(img, rsp, env), ReadAux(img, 8 * (3 + |args| + |env|));
    if argv.None? || envp.None? || auxv.None? then None
    else Some(Startup(WordAt(img, 0), argv.value, envp.value, auxv.value))
  }

  lemma {:induction false} WordRead(ws: seq<nat>, tail: seq<Byte>, i: nat)
    requires i < |ws| && ws[i] < WORD_LIMIT
    ensures WordAt(Words(ws) + tail, 8 * i) == ws[i]
  {
    var img := Words(ws) + tail;
    if i == 0 {
      assert img[..8] == Enc(ws[0], 8);
      WordRoundTrip(ws[0]);
    } else {
      var rest := Words(ws[1..]) + tail;
      WordRead(ws[1..], tail, i - 1);
      assert img == Enc(ws[0], 8) + rest;
      assert img[8 * i..8 * i + 8] == rest[8 * (i - 1)..8 * (i - 1) + 8];
    }
  }

  /** Words that can stand in a list ended by a zero word. */
  ghost predicate Proper(ps: seq<nat>)
  {
    forall k :: 0 <= k < |ps| ==> 0 < ps[k] < WORD_LIMIT
  }

  lemma {:induction false} PointersRead(ws: seq<nat>, tail: seq<Byte>, i: nat, n: nat)
    requires i + n < |ws| && ws[i + n] == 0 && Proper(ws[i..i + n])
    ensures ReadPointers(Words(ws) + tail, 8 * i) == Some(ws[i..i + n])
    decreases n
  {
    if n == 0 {
      WordRead(ws, tail, i);
    } else {
      assert ws[i] == ws[i..i + n][0];
      assert ws[i + 1..i + n] == ws[i..i + n][1..];
      WordRead(ws, tail, i);
      PointersRead(ws, tail, i + 1, n - 1);
      assert ws[i..i + n] == [ws[i]] + ws[i + 1..i + n];
    }
  }

  lemma StringRead(img: seq<Byte>, at: nat, s: Str)
    requires StringIn(img, at, s)
    ensures StringAt(img, at) == Some(s)
  {
    var e := StringEnd(img, at);
    assert forall k :: at <= k < at + |s| ==> img[k] == s[k - at];
    assert e == at + |s|;
  }

  /** String `i` of the string area and its terminator. */
  lemma {:induction false} StringFound(strs: seq<Str>, k: nat, i: nat)
    requires i < k <= |strs|
    ensures Space(strs, i + 1) <= Space(strs, k)
    ensures StringIn(Pushed(strs, k), Space(strs, k) - Space(strs, i + 1), strs[i])
  {
    if i + 1 < k {
      StringFound(strs, k - 1, i);
      StringAbove(strs[k - 1] + [0], Pushed(strs, k - 1), Space(strs, k - 1) - Space(strs, i + 1), strs[i]);
    }
  }

  /** `s` and its terminator stand at `at`. */
  predicate StringIn(area: seq<Byte>, at: nat, s: Str)
  {
    at + |s| < |area| && area[at..at + |s|] == s && area[at + |s|] == 0
  }

  lemma StringAbove(pre: seq<Byte>, area: seq<Byte>, at: nat, s: Str)
    requires StringIn(area, at, s)
    ensures StringIn(pre + area, |pre| + at, s)
  {
    assert (pre + area)[|pre| + at..|pre| + at + |s|] == area[at..at + |s|];
  }

  /** The pointers `ps` are those to the strings `strs` in an image that starts at address `base`. */
  ghost predicate PointTo(img: seq<Byte>, base: nat, ps: seq<nat>, strs: seq<Str>)
  {
    && |ps| == |strs|
    && forall k :: 0 <= k < |ps| ==> ps[k] >= base && StringIn(img, ps[k] - base, strs[k])
  }

  lemma HeadAndTail<T>(s: seq<T>)
    requires s != []
    ensures [s[0]] + s[1..] == s
  {
  }

  lemma {:induction false} StringsRead(img: seq<Byte>, base: nat, ps: seq<nat>, strs: seq<Str>)
    requires PointTo(img, base, ps, strs)
    ensures ReadStrings(img, base, ps) == Some(strs)
  {
    if ps != [] {
      assert ps[0] >= base && StringAt(img, ps[0] - base) == Some(strs[0]) by {
        StringRead(img, ps[0] - base, strs[0]);
      }
      assert PointTo(img, base, ps[1..], strs[1..]) by {
        forall k | 0 <= k < |ps[1..]| ensures ps[1..][k] >= base && StringIn(img, ps[1..][k] - base, strs[1..][k]) {
          assert ps[1..][k] == ps[k + 1] && strs[1..][k] == strs[k + 1];
        }
      }
      StringsRead(img, base, ps[1..], strs[1..]);
      HeadAndTail(strs);
    }
  }

  /** The words of the header, as the start-up code reads them. */
  ghost predicate HeaderIn(img: seq<Byte>, argv: seq<Str>, envp: seq<Str>, aux: Auxval)
  {
    && StringSpace(argv, envp) <= USER_STACK_TOP && |img| >= 8 && WordAt(img, 0) == |argv|
    && ReadPointers(img, 8) == Some(ArgPointers(argv, envp))
    && ReadPointers(img, 8 * (2 + |argv|)) == Some(EnvPointers(argv, envp))
    && ReadAux(img, 8 * (3 + |argv| + |envp|)) == Some(AuxPairs(aux))
  }

  lemma HeaderReads(argv: seq<Str>, envp: seq<Str>, aux: Auxval, tail: seq<Byte>)
    requires StringSpace(argv, envp) <= STACK_SIZE && |argv| < WORD_LIMIT && InWord(aux)
    ensures HeaderIn(Words(HeaderWords(argv, envp, aux)) + tail, argv, envp, aux)
  {
    var ws, n, m := HeaderWords(argv, envp, aux), |argv|, |envp|;
    HeaderParts(argv, envp, aux);
    PointersInWord(argv, envp);
    WordRead(ws, tail, 0);
    PointersRead(ws, tail, 1, n);
    PointersRead(ws, tail, 2 + n, m);
    AuxRead(ws, tail, 3 + n + m, aux);
  }

  /** What the start-up code is promised: the keys are 10 for the entry point, 20, 21 and 22 for address, entry size and
      length of the program header table. */
  ghost predicate Recovers(img: seq<Byte>, rsp: nat, argv: seq<Str>, envp: seq<Str>, aux: Auxval)
  {
    Parse(img, rsp) ==
    Some(Startup(|argv|, argv, envp, [(22, aux.phnum), (21, aux.phent), (20, aux.phdr), (10, aux.entry)]))
  }

  predicate WordIs(img: seq<Byte>, at: nat, w: nat)
  {
    at + 8 <= |img| && WordAt(img, at) == w
  }

  /** The pointers that are read end at a zero word. */
  lemma {:induction false} PointersEnd(img: seq<Byte>, at: nat, ps: seq<nat>, end: nat)
    requires ReadPointers(img, at) == Some(ps) && end == at + 8 * |ps|
    ensures WordIs(img, end, 0)
    decreases |ps|
  {
    if ps != [] {
      PointersEnd(img, at + 8, ps[1..], end);
    }
  }

  lemma {:induction false} AsManyStrings(img: seq<Byte>, base: nat, ps: seq<nat>, strs: seq<Str>)
    requires ReadStrings(img, base, ps) == Some(strs)
    ensures |ps| == |strs|
  {
    if ps != [] {
      AsManyStrings(img, base, ps[1..], strs[1..]);
    }
  }

  /** From `a` on: AT_PHNUM (22), AT_PHENT (21), AT_PHDR (20) and AT_ENTRY (10), each with its value, and a zero. */
  predicate AuxAt(img: seq<Byte>, a: nat, aux: Auxval)
  {
    && WordIs(img, a, 22) && WordIs(img, a + 8, aux.phnum) && WordIs(img, a + 16, 21)
    && WordIs(img, a + 24, aux.phent) && WordIs(img, a + 32, 20) && WordIs(img, a + 40, aux.phdr)
    && WordIs(img, a + 48, 10) && WordIs(img, a + 56, aux.entry) && WordIs(img, a + 64, 0)
  }

  /** What recovering means for the words from the stack pointer on: argc, the argv pointers and NULL, the envp pointers
      and NULL, and the auxiliary vector.  The envp pointers begin at `e`, the auxiliary vector at `a`. */
  lemma StackLayout(img: seq<Byte>, rsp: nat, argv: seq<Str>, envp: seq<Str>, aux: Auxval, e: nat, a: nat)
    requires Recovers(img, rsp, argv, envp, aux) && e == 8 * (2 + |argv|) && a == e + 8 * (1 + |envp|)
    ensures WordIs(img, 0, |argv|) && WordIs(img, e - 8, 0) && WordIs(img, a - 8, 0) && AuxAt(img, a, aux)
  {
    var args, env := Located(img, rsp, argv, envp, aux, e, a);
    PointersEnd(img, 8, args, e - 8);
    PointersEnd(img, e, env, a - 8);
    AuxLayout(img, a, aux);
  }

  lemma Located(img: seq<Byte>, rsp: nat, argv: seq<Str>, envp: seq<Str>, aux: Auxval, e: nat, a: nat)
    returns (args: seq<nat>, env: seq<nat>)
    requires Recovers(img, rsp, argv, envp, aux) && e == 8 * (2 + |argv|) && a == e + 8 * (1 + |envp|)
    ensures WordIs(img, 0, |argv|) && |args| == |argv| && |env| == |envp|
    ensures ReadPointers(img, 8) == Some(args) && ReadPointers(img, e) == Some(env)
    ensures ReadAux(img, a) == Some([(22, aux.phnum), (21, aux.phent), (20, aux.phdr), (10, aux.entry)])
  {
    args, env := ParsedParts(img, rsp, argv, envp, aux);
    AsManyStrings(img, rsp, args, argv);
    AsManyStrings(img, rsp, env, envp);
    assert 8 * (2 + |args|) == e && 8 * (3 + |args| + |env|) == a;
  }

  lemma ParsedParts(img: seq<Byte>, rsp: nat, argv: seq<Str>, envp: seq<Str>, aux: Auxval)
    returns (args: seq<nat>, env: seq<nat>)
    requires Recovers(img, rsp, argv, envp, aux)
    ensures WordIs(img, 0, |argv|)
    ensures ReadPointers(img, 8) == Some(args) && ReadPointers(img, 8 * (2 + |args|)) == Some(env)
    ensures ReadStrings(img, rsp, args) == Some(argv) && ReadStrings(img, rsp, env) == Some(envp)
    ensures ReadAux(img, 8 * (3 + |args| + |env|)) ==
            Some([(22, aux.phnum), (21, aux.phent), (20, aux.phdr), (10, aux.entry)])
  {
    args := ReadPointers(img, 8).value;
    env := ReadPointers(img, 8 * (2 + |args|)).value;
  }

  lemma AuxLayout(img: seq<Byte>, a: nat, aux: Auxval)
    requires ReadAux(img, a) == Some([(22, aux.phnum), (21, aux.phent), (20, aux.phdr), (10, aux.entry)])
    ensures AuxAt(img, a, aux)
  {
    FirstPair(img, a, a + 16, [(22, aux.phnum), (21, aux.phent), (20, aux.phdr), (10, aux.entry)]);
    FirstPair(img, a + 16, a + 32, [(21, aux.phent), (20, aux.phdr), (10, aux.entry)]);
    FirstPair(img, a + 32, a + 48, [(20, aux.phdr), (10, aux.entry)]);
    FirstPair(img, a + 48, a + 64, [(10, aux.entry)]);
  }

  lemma FirstPair(img: seq<Byte>, a: nat, next: nat, ps: seq<(nat, nat)>)
    requires ReadAux(img, a) == Some(ps) && ps != [] && next == a + 16
    ensures WordIs(img, a, ps[0].0) && WordIs(img, a + 8, ps[0].1) && ReadAux(img, next) == Some(ps[1..])
  {
  }

  lemma Parsed(img: seq<Byte>, rsp: nat, args: seq<nat>, env: seq<nat>, argv: seq<Str>, envp: seq<Str>, aux: Auxval)
    requires |img| >= 8 && WordAt(img, 0) == |args|
    requires ReadPointers(img, 8) == Some(args) && ReadPointers(img, 8 * (2 + |args|)) == Some(env)
    requires ReadAux(img, 8 * (3 + |args| + |env|)) == Some(AuxPairs(aux))
    requires PointTo(img, rsp, args, argv) && PointTo(img, rsp, env, envp)
    ensures Recovers(img, rsp, argv, envp, aux)
  {
    StringsRead(img, rsp, args, argv);
    StringsRead(img, rsp, env, envp);
    ParsedStrings(img, rsp, args, env, argv, envp, AuxPairs(aux));
    assert Parse(img, rsp) == ParseStrings(img, rsp, args, env);
  }

  lemma ParsedStrings(img: seq<Byte>, rsp: nat, args: seq<nat>, env: seq<nat>, argv: seq<Str>, envp: seq<Str>,
      auxv: seq<(nat, nat)>)
    requires |img| >= 8 && WordAt(img, 0) == |argv|
    requires ReadAux(img, 8 * (3 + |args| + |env|)) == Some(auxv)
    requires ReadStrings(img, rsp, args) == Some(argv) && ReadStrings(img, rsp, env) == Some(envp)
    ensures ParseStrings(img, rsp, args, env) == Some(Startup(|argv|, argv, envp, auxv))
  {
  }

  /** The start-up code recovers what the builder was given. */
  lemma StackParses(argv: seq<Str>, envp: seq<Str>, aux: Auxval, gap: seq<Byte>, rsp: nat)
    requires StringSpace(argv, envp) <= STACK_SIZE && |argv| < WORD_LIMIT && InWord(aux)
    requires rsp + 8 * (13 + |argv| + |envp|) + |gap| + StringSpace(argv, envp) == USER_STACK_TOP
    ensures Recovers(Words(HeaderWords(argv, envp, aux)) + (gap + StringArea(argv, envp)), rsp, argv, envp, aux)
  {
    var header := Words(HeaderWords(argv, envp, aux));
    HeaderReads(argv, envp, aux, gap + StringArea(argv, envp));
    Assoc(header, gap, StringArea(argv, envp));
    ArgsPointed(argv, envp, header + gap, rsp);
    EnvPointed(argv, envp, header + gap, rsp);
    Parsed(header + (gap + StringArea(argv, envp)), rsp, ArgPointers(argv, envp), EnvPointers(argv, envp), argv, envp,
           aux);
  }

  lemma HeaderParts(argv: seq<Str>, envp: seq<Str>, aux: Auxval)
    requires StringSpace(argv, envp) <= USER_STACK_TOP
    ensures var ws, n, m := HeaderWords(argv, envp, aux), |argv|, |envp|;
      && ws[0] == n && ws[1 + n] == 0 && ws[2 + n + m] == 0
      && ws[1..1 + n] == ArgPointers(argv, envp)
      && ws[2 + n..2 + n + m] == EnvPointers(argv, envp)
      && ws[3 + n + m..] == AuxWords(aux)
  {
  }

  lemma PointersInWord(argv: seq<Str>, envp: seq<Str>)
    requires StringSpace(argv, envp) <= STACK_SIZE
    ensures Proper(ArgPointers(argv, envp)) && Proper(EnvPointers(argv, envp))
  {
    var args, env := ArgPointers(argv, envp), EnvPointers(argv, envp);
    forall k | 0 <= k < |argv| ensures 0 < args[k] < WORD_LIMIT {
      PointerAt(argv, USER_STACK_TOP - Space(envp, |envp|), |argv|, k);
    }
    forall k | 0 <= k < |envp| ensures 0 < env[k] < WORD_LIMIT {
      PointerAt(envp, USER_STACK_TOP, |envp|, k);
    }
  }

  lemma ArgsPointed(argv: seq<Str>, envp: seq<Str>, pre: seq<Byte>, rsp: nat)
    requires StringSpace(argv, envp) <= STACK_SIZE && rsp + |pre| + StringSpace(argv, envp) == USER_STACK_TOP
    ensures PointTo(pre + StringArea(argv, envp), rsp, ArgPointers(argv, envp), argv)
  {
    AreaPointed(pre, argv, Pushed(envp, |envp|), rsp);
  }

  lemma EnvPointed(argv: seq<Str>, envp: seq<Str>, pre: seq<Byte>, rsp: nat)
    requires StringSpace(argv, envp) <= STACK_SIZE && rsp + |pre| + StringSpace(argv, envp) == USER_STACK_TOP
    ensures PointTo(pre + StringArea(argv, envp), rsp, EnvPointers(argv, envp), envp)
  {
    var args, env := Pushed(argv, |argv|), Pushed(envp, |envp|);
    AreaPointed(pre + args, envp, [], rsp);
    assert env + [] == env;
    Assoc(pre, args, env);
  }

  /** Strings pushed in one go: their pointers find them, whatever lies below and above. */
  lemma AreaPointed(pre: seq<Byte>, strs: seq<Str>, post: seq<Byte>, base: nat)
    ensures Space(strs, |strs|) <= base + |pre| + Space(strs, |strs|)
    ensures PointTo(pre + (Pushed(strs, |strs|) + post), base,
                    Pointers(strs, base + |pre| + Space(strs, |strs|), |strs|), strs)
  {
    var n := |strs|;
    var all := Space(strs, n);
    var ps, img := Pointers(strs, base + |pre| + all, n), pre + (Pushed(strs, n) + post);
    forall k | 0 <= k < n ensures ps[k] >= base && StringIn(img, ps[k] - base, strs[k]) {
      PointerAt(strs, base + |pre| + all, n, k);
      StringFound(strs, n, k);
      StringBetween(pre, Pushed(strs, n), post, all - Space(strs, k + 1), strs[k]);
    }
  }

  lemma StringBetween(pre: seq<Byte>, area: seq<Byte>, post: seq<Byte>, at: nat, s: Str)
    requires StringIn(area, at, s)
    ensures StringIn(pre + (area + post), |pre| + at, s)
  {
    assert (area + post)[at..at + |s|] == area[at..at + |s|];
    StringAbove(pre, area + post, at, s);
  }

  lemma AuxRead(ws: seq<nat>, tail: seq<Byte>, i: nat, aux: Auxval)
    requires i + 10 == |ws| && ws[i..] == AuxWords(aux) && InWord(aux)
    ensures ReadAux(Words(ws) + tail, 8 * i) == Some(AuxPairs(aux))
  {
    forall k | 0 <= k < 10 ensures ws[i + k] == AuxWords(aux)[k] {
      assert ws[i + k] == ws[i..][k];
    }
    assert ws[i + 0] == AT_PHNUM && ws[i + 1] == aux.phnum && ws[i + 2] == AT_PHENT && ws[i + 3] == aux.phent;
    assert ws[i + 4] == AT_PHDR && ws[i + 5] == aux.phdr && ws[i + 6] == AT_ENTRY && ws[i + 7] == aux.entry;
    assert ws[i + 8] == 0;
    WordRead(ws, tail, i + 8);
    assert ReadAux(Words(ws) + tail, 8 * (i + 8)) == Some([]);
    AuxPair(ws, tail, i + 6, []);
    AuxPair(ws, tail, i + 4, [(AT_ENTRY, aux.entry)] + []);
    AuxPair(ws, tail, i + 2, [(AT_PHDR, aux.phdr)] + ([(AT_ENTRY, aux.entry)] + []));
    AuxPair(ws, tail, i, [(AT_PHENT, aux.phent)] + ([(AT_PHDR, aux.phdr)] + ([(AT_ENTRY, aux.entry)] + [])));
    assert AuxPairs(aux) ==
      [(AT_PHNUM, aux.phnum)] + ([(AT_PHENT, aux.phent)] + ([(AT_PHDR, aux.phdr)] + ([(AT_ENTRY, aux.entry)] + [])));
  }

  lemma AuxPair(ws: seq<nat>, tail: seq<Byte>, i: nat, rest: seq<(nat, nat)>)
    requires i + 1 < |ws| && 0 < ws[i] < WORD_LIMIT && ws[i + 1] < WORD_LIMIT
    requires ReadAux(Words(ws) + tail, 8 * (i + 2)) == Some(rest)
    ensures ReadAux(Words(ws) + tail, 8 * i) == Some([(ws[i], ws[i + 1])] + rest)
  {
    WordRead(ws, tail, i);
    WordRead(ws, tail, i + 1);
    assert 8 * i + 16 == 8 * (i + 2) && 8 * i + 8 == 8 * (i + 1);
  }
}
