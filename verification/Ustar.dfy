/** The ustar archive walk of src/kernel/fs/ustar.c, against the archive layout of POSIX.1-2017,
    `pax` utility, "ustar Interchange Format". */
module Ustar {
  import opened Basics

  const BLOCK: nat := 512
  const UINT: nat := 0x1_0000_0000
  const DIRECTORY_FLAG: Byte := 53
  const SLASH: Byte := 47
  const DIGIT_ZERO: Byte := 48

  // ----- Sizes in octal --------------------------------------------------------------------

  /** A C `char` is signed here. */
  function Signed(b: Byte): int
  {
    if b < 128 then b else b - 256
  }

  /** The value of a digit string, most significant digit first, whatever its characters are. */
  function Octal(digits: seq<Byte>): int
  {
    if digits == [] then 0
    else 8 * Octal(digits[..|digits| - 1]) + (Signed(digits[|digits| - 1]) - DIGIT_ZERO)
  }

  /** `n` octal digits of `v`. */
  function Digits(v: nat, n: nat): (d: seq<Byte>)
    ensures |d| == n
  {
    if n == 0 then [] else Digits(v / 8, n - 1) + [DIGIT_ZERO + v % 8]
  }

  function Pow8(n: nat): (p: nat)
    ensures p > 0
  {
    if n == 0 then 1 else 8 * Pow8(n - 1)
  }

  lemma {:induction false} OctalDigits(v: nat, n: nat)
    requires v < Pow8(n)
    ensures Octal(Digits(v, n)) == v
  {
    if n > 0 {
      OctalDigits(v / 8, n - 1);
      assert Digits(v, n)[..n - 1] == Digits(v / 8, n - 1);
    }
  }

  /** The digits from `j` on contribute their octal value, the others that of a shorter string. */
  lemma {:induction false} OctalSplit(digits: seq<Byte>, j: nat)
    requires j <= |digits|
    ensures Octal(digits) == Pow8(|digits| - j) * Octal(digits[..j]) + Octal(digits[j..])
    decreases |digits| - j
  {
    if j == |digits| {
      assert digits[..j] == digits;
    } else {
      var init := digits[..|digits| - 1];
      OctalSplit(init, j);
      assert init[..j] == digits[..j] && digits[j..][..|digits| - j - 1] == init[j..];
      Distribute(Pow8(|init| - j), Octal(digits[..j]), Octal(init[j..]));
    }
  }

  lemma Distribute(p: int, a: int, b: int)
    ensures 8 * (p * a + b) == 8 * p * a + 8 * b
  {
  }

  /** getsize: eleven digits, from the last to the first, in unsigned 32-bit arithmetic. */
  method GetSize(field: seq<Byte>) returns (size: nat)
    requires |field| >= 11
    ensures size == SizeOf(field)
  {
    var count := 1;
    size := 0;
    for j := 11 downto 0
      invariant count == Pow8(11 - j) % UINT && size == Octal(field[..11][j..]) % UINT
    {
      SizeStep(field[..11], j);
      var digit := Signed(field[j]) - DIGIT_ZERO;
      Wrap(Octal(field[..11][j + 1..]), digit, Pow8(10 - j));
      size := (size + digit * count) % UINT;
      count := count * 8 % UINT;
    }
    assert field[..11][0..] == field[..11];
  }

  lemma Wrap(a: int, d: int, c: int)
    ensures (a % UINT + d * (c % UINT)) % UINT == (a + d * c) % UINT
    ensures c % UINT * 8 % UINT == 8 * c % UINT
  {
    var q, r := c / UINT, c % UINT;
    assert c == q * UINT + r;
    assert d * c == d * q * UINT + d * r by {
      Distributed(d, q, r);
    }
    Multiple(a + d * r, d * q);
    Multiple(a % UINT + d * r, a / UINT);
    Multiple(8 * r, 8 * q);
  }

  lemma Distributed(d: int, q: int, r: int)
    ensures d * (q * UINT + r) == d * q * UINT + d * r
  {
  }

  lemma Multiple(x: int, k: int)
    ensures (x + k * UINT) % UINT == x % UINT
  {
  }

  function SizeOf(field: seq<Byte>): (size: nat)
    requires |field| >= 11
  {
    Octal(field[..11]) % UINT
  }

  lemma OneDigit(b: Byte)
    ensures Octal([b]) == Signed(b) - DIGIT_ZERO
  {
    assert [b][..0] == [];
  }

  lemma SizeStep(digits: seq<Byte>, j: nat)
    requires j < |digits|
    ensures Octal(digits[j..]) == Octal(digits[j + 1..]) + (Signed(digits[j]) - DIGIT_ZERO) * Pow8(|digits| - j - 1)
  {
    var d := digits[j..];
    OctalSplit(d, 1);
    assert d[..1] == [digits[j]] && d[1..] == digits[j + 1..];
    OneDigit(digits[j]);
    Commute(Pow8(|digits| - j - 1), Signed(digits[j]) - DIGIT_ZERO);
  }

  lemma Commute(a: int, b: int)
    ensures a * b == b * a
  {
  }

  /** getsize inverts the octal printing of a size if and only if the size fits in 32 bits. */
  lemma SizeRoundTrip(v: nat, rest: seq<Byte>)
    requires v < Pow8(11)
    ensures SizeOf(Digits(v, 11) + rest) == v <==> v < UINT
  {
    OctalDigits(v, 11);
    assert (Digits(v, 11) + rest)[..11] == Digits(v, 11);
  }

  /** A character above 127 counts as a negative digit: ten zeros and 0xc8 wrap around to 2^32 - 104. */
  lemma NegativeDigit(rest: seq<Byte>)
    ensures SizeOf(Digits(0, 10) + [200] + rest) == 0xffff_ff98
  {
    var digits := Digits(0, 10) + [200];
    assert Pow8(2) == 64;
    OctalDigits(0, 10);
    assert digits[..10] == Digits(0, 10) && (digits + rest)[..11] == digits;
    assert Octal(digits) == -104;
  }

  /** 00000000017 is fifteen. */
  lemma Fifteen(rest: seq<Byte>)
    ensures Digits(15, 11) == [48, 48, 48, 48, 48, 48, 48, 48, 48, 49, 55] && SizeOf(Digits(15, 11) + rest) == 15
  {
    assert Digits(15, 2) == [49, 55];
    NoDigits(9);
    assert Digits(15, 11) == Digits(0, 9) + [49] + [55];
    Pow8Of11();
    SizeRoundTrip(15, rest);
  }

  lemma {:induction false} NoDigits(n: nat)
    ensures Digits(0, n) == seq(n, i => 48)
  {
    if n > 0 {
      NoDigits(n - 1);
      assert Digits(0, n) == Digits(0, n - 1) + [48];
    }
  }

  /** A file of 4 GiB is taken for an empty one. */
  lemma HugeFile(rest: seq<Byte>)
    ensures UINT < Pow8(11) && SizeOf(Digits(UINT, 11) + rest) == 0
  {
    Pow8Of11();
    OctalDigits(UINT, 11);
    assert (Digits(UINT, 11) + rest)[..11] == Digits(UINT, 11);
  }

  // ----- Archives ----------------------------------------------------------------------------

  /** One member of an archive.  `owner` is mode, uid and gid; `stamp` is mtime and chksum; `rest`
      is what follows the type flag. */
  datatype Entry = Entry(name: seq<Byte>, flag: Byte, data: seq<Byte>, owner: seq<Byte>, end: Byte,
                         stamp: seq<Byte>, rest: seq<Byte>)

  predicate Good(e: Entry)
  {
    && 1 <= |e.name| <= 99 && 0 !in e.name && |e.data| < UINT
    && |e.owner| == 24 && |e.stamp| == 20 && |e.rest| == 355
  }

  function Zeros(n: nat): (z: seq<Byte>)
    ensures |z| == n && forall k :: 0 <= k < n ==> z[k] == 0
  {
    seq(n, i => 0)
  }

  function Header(e: Entry): (h: seq<Byte>)
    requires Good(e)
    ensures |h| == BLOCK
  {
    e.name + Zeros(100 - |e.name|) + e.owner + (Digits(|e.data|, 11) + [e.end]) + e.stamp + [e.flag] + e.rest
  }

  /** Where the fields of a header stand: the name from 0 on, terminated, the size from 124 on, the type at 156. */
  lemma HeaderLayout(e: Entry)
    requires Good(e)
    ensures Header(e)[..|e.name|] == e.name && Header(e)[|e.name|] == 0
    ensures Header(e)[124..135] == Digits(|e.data|, 11) && Header(e)[156] == e.flag
  {
    var fixed := e.name + Zeros(100 - |e.name|) + e.owner;
    assert |fixed| == 124 && fixed[..|e.name|] == e.name && fixed[|e.name|] == 0;
    var h := fixed + (Digits(|e.data|, 11) + [e.end]) + e.stamp + [e.flag] + e.rest;
    assert h == Header(e);
    assert h[124..135] == Digits(|e.data|, 11);
  }

  /** Bytes that fill `n` up to whole blocks. */
  function Padding(n: nat): (p: nat)
  {
    if n % BLOCK == 0 then 0 else BLOCK - n % BLOCK
  }

  function Member(e: Entry): (m: seq<Byte>)
    requires Good(e)
  {
    Header(e) + e.data + Zeros(Padding(|e.data|))
  }

  predicate AllGood(es: seq<Entry>)
  {
    forall i :: 0 <= i < |es| ==> Good(es[i])
  }

  function Archive(es: seq<Entry>): seq<Byte>
    requires AllGood(es)
  {
    if es == [] then Zeros(2 * BLOCK) else Member(es[0]) + Archive(es[1..])
  }

  // ----- The walk ------------------------------------------------------------------------------

  /** What the walk does with a member: vfs_mkdir or tmpfs_create_file. */
  datatype Visit = MakeDirectory(path: seq<Byte>) | CreateFile(path: seq<Byte>, address: nat, size: nat)

  /** The bytes from `at` to the next zero byte. */
  function StrLen(mem: seq<Byte>, at: nat): (n: nat)
    requires at <= |mem|
    ensures at + n <= |mem| && (forall k :: at <= k < at + n ==> mem[k] != 0)
    ensures at + n < |mem| ==> mem[at + n] == 0
    decreases |mem| - at
  {
    if at == |mem| || mem[at] == 0 then 0 else 1 + StrLen(mem, at + 1)
  }

  function VisitAt(mem: seq<Byte>, at: nat): (v: Visit)
    requires at + BLOCK <= |mem| && mem[at] != 0
  {
    var name := mem[at..at + StrLen(mem, at)];
    if mem[at + 156] == DIRECTORY_FLAG then MakeDirectory([SLASH] + name[..|name| - 1])
    else CreateFile([SLASH] + name, at + BLOCK, SizeOf(mem[at + 124..at + 136]))
  }

  function Next(mem: seq<Byte>, at: nat): (next: nat)
    requires at + BLOCK <= |mem|
    ensures next > at
  {
    var size := SizeOf(mem[at + 124..at + 136]);
    at + (size / BLOCK + 1) * BLOCK + if size % BLOCK != 0 then BLOCK else 0
  }

  /** The visits of the walk from `at` on; none when it runs past the end of memory. */
  function Walk(mem: seq<Byte>, at: nat): (r: Option<seq<Visit>>)
    decreases |mem| - at
  {
    if at + BLOCK > |mem| then None
    else if mem[at] == 0 then Some([])
    else
      var rest := Walk(mem, Next(mem, at));
      if rest.None? then None else Some([VisitAt(mem, at)] + rest.value)
  }

  /** The walk from `at` on makes exactly these visits and ends at a zero block. */
  ghost predicate Visits(mem: seq<Byte>, at: nat, visits: seq<Visit>)
  {
    Walk(mem, at) == Some(visits)
  }

  /** create_tmpfs_files. */
  method CreateFiles(mem: seq<Byte>, start: nat) returns (r: Option<seq<Visit>>)
    ensures r == Walk(mem, start)
  {
    var address, visits := start, [];
    NothingYet(Walk(mem, start));
    while address + BLOCK <= |mem| && mem[address] != 0
      invariant Walk(mem, start) == Prepended(visits, Walk(mem, address))
      decreases |mem| - address
    {
      WalkStep(mem, address, visits);
      var visit, next := VisitMember(mem, address);
      visits, address := visits + [visit], next;
    }
    r := if address + BLOCK > |mem| then None else Some(visits);
    assert r == Prepended(visits, Walk(mem, address)) by {
      assert visits + [] == visits;
    }
  }

  method VisitMember(mem: seq<Byte>, address: nat) returns (visit: Visit, next: nat)
    requires address + BLOCK <= |mem| && mem[address] != 0
    ensures visit == VisitAt(mem, address) && next == Next(mem, address)
  {
    var size := GetSize(mem[address + 124..address + 136]);
    var length := StrLen(mem, address);
    var name := mem[address..address + length];
    if mem[address + 156] == DIRECTORY_FLAG {
      visit := MakeDirectory([SLASH] + name[..length - 1]);
    } else {
      visit := CreateFile([SLASH] + name, address + BLOCK, size);
    }
    next := address + (size / BLOCK + 1) * BLOCK;
    if size % BLOCK != 0 {
      next := next + BLOCK;
    }
  }

  lemma NothingYet(rest: Option<seq<Visit>>)
    ensures Prepended([], rest) == rest
  {
    if rest.Some? {
      assert [] + rest.value == rest.value;
    }
  }

  lemma WalkStep(mem: seq<Byte>, at: nat, visits: seq<Visit>)
    requires at + BLOCK <= |mem| && mem[at] != 0
    ensures Prepended(visits, Walk(mem, at)) == Prepended(visits + [VisitAt(mem, at)], Walk(mem, Next(mem, at)))
  {
    var rest := Walk(mem, Next(mem, at));
    if rest.Some? {
      assert visits + ([VisitAt(mem, at)] + rest.value) == visits + [VisitAt(mem, at)] + rest.value;
    }
  }

  function Prepended(visits: seq<Visit>, rest: Option<seq<Visit>>): Option<seq<Visit>>
  {
    if rest.None? then None else Some(visits + rest.value)
  }

  // ----- The round trip --------------------------------------------------------------------------

  /** What a member asks for: a directory's name ends in a slash, which the walk drops. */
  function Wanted(e: Entry, at: nat): Visit
    requires Good(e)
  {
    if e.flag == DIRECTORY_FLAG then MakeDirectory([SLASH] + e.name[..|e.name| - 1])
    else CreateFile([SLASH] + e.name, at + BLOCK, |e.data|)
  }

  function AllWanted(es: seq<Entry>, at: nat): seq<Visit>
    requires AllGood(es)
  {
    if es == [] then [] else [Wanted(es[0], at)] + AllWanted(es[1..], Behind(es[0], at))
  }

  /** Where the member after `e` starts. */
  function Behind(e: Entry, at: nat): nat
    requires Good(e)
  {
    at + |Member(e)|
  }

  lemma {:induction false} StrLenIs(mem: seq<Byte>, at: nat, n: nat)
    requires at + n < |mem| && mem[at + n] == 0 && forall k :: at <= k < at + n ==> mem[k] != 0
    ensures StrLen(mem, at) == n
    decreases n
  {
    if n > 0 {
      StrLenIs(mem, at + 1, n - 1);
    }
  }

  lemma SliceOfSlice<T>(m: seq<T>, i: nat, j: nat, a: nat, b: nat)
    requires i <= j <= |m| && a <= b <= j - i
    ensures m[i..j][a..b] == m[i + a..i + b]
  {
    forall k | 0 <= k < b - a ensures m[i..j][a..b][k] == m[i + a..i + b][k] {
      assert m[i..j][a..b][k] == m[i..j][a + k] == m[i + a + k];
    }
  }

  lemma HeaderFields(e: Entry)
    requires Good(e)
    ensures var h := Header(e);
      && h[..|e.name|] == e.name && h[|e.name|] == 0
      && h[124..136] == Digits(|e.data|, 11) + [e.end] && h[156] == e.flag
  {
  }

  lemma HeaderRead(mem: seq<Byte>, at: nat, e: Entry)
    requires Good(e) && at + BLOCK <= |mem| && mem[at..at + BLOCK] == Header(e)
    ensures mem[at] != 0 && VisitAt(mem, at) == Wanted(e, at) && Next(mem, at) == at + |Member(e)|
  {
    var h, n := Header(e), |e.name|;
    HeaderFields(e);
    assert mem[at..at + n] == h[..n] && mem[at + n] == h[n];
    forall k | at <= k < at + n ensures mem[k] != 0 {
      assert mem[k] == mem[at..at + n][k - at];
    }
    StrLenIs(mem, at, n);
    SliceOfSlice(mem, at, at + BLOCK, 124, 136);
    assert mem[at + 156] == h[156];
    Pow8Of11();
    SizeRoundTrip(|e.data|, [e.end]);
    Blocks(|e.data|);
  }

  lemma Pow8Of11()
    ensures Pow8(11) == 2 * UINT
  {
    assert Pow8(5) == 32768;
  }

  lemma Blocks(n: nat)
    ensures (n / BLOCK + 1) * BLOCK + (if n % BLOCK != 0 then BLOCK else 0) == BLOCK + n + Padding(n)
  {
  }

  /** Walking an archive visits exactly its members, in order, each with its kind, size and the
      address of its data. */
  lemma {:induction false} WalkVisits(mem: seq<Byte>, at: nat, es: seq<Entry>)
    requires AllGood(es) && Holds(mem, at, es)
    ensures Visits(mem, at, AllWanted(es, at))
    decreases |es|
  {
    if es == [] {
      assert mem[at] == mem[at..][0];
    } else {
      FirstMember(mem, at, es);
      HeaderRead(mem, at, es[0]);
      WalkVisits(mem, Behind(es[0], at), es[1..]);
      OneVisit(mem, at, AllWanted(es[1..], Behind(es[0], at)));
    }
  }

  lemma OneVisit(mem: seq<Byte>, at: nat, rest: seq<Visit>)
    requires at + BLOCK <= |mem| && mem[at] != 0 && Visits(mem, Next(mem, at), rest)
    ensures Visits(mem, at, [VisitAt(mem, at)] + rest)
  {
  }

  ghost predicate Holds(mem: seq<Byte>, at: nat, es: seq<Entry>)
    requires AllGood(es)
  {
    at <= |mem| && mem[at..] == Archive(es)
  }

  /** `data` stands behind the header of a member at `at`. */
  ghost predicate HasData(mem: seq<Byte>, at: nat, data: seq<Byte>)
  {
    at + BLOCK + |data| <= |mem| && mem[at + BLOCK..at + BLOCK + |data|] == data
  }

  lemma FirstMember(mem: seq<Byte>, at: nat, es: seq<Entry>)
    requires AllGood(es) && es != [] && Holds(mem, at, es)
    ensures Holds(mem, Behind(es[0], at), es[1..]) && HasData(mem, at, es[0].data)
    ensures mem[at..at + BLOCK] == Header(es[0])
  {
    var m, d := Member(es[0]), |es[0].data|;
    Taken(mem, at, m, Archive(es[1..]), 0, BLOCK);
    Taken(mem, at, m, Archive(es[1..]), BLOCK, BLOCK + d);
    assert m[0..BLOCK] == Header(es[0]) && m[BLOCK..BLOCK + d] == es[0].data;
  }

  lemma Taken(mem: seq<Byte>, at: nat, m: seq<Byte>, rest: seq<Byte>, i: nat, j: nat)
    requires at <= |mem| && mem[at..] == m + rest && i <= j <= |m|
    ensures mem[at + i..at + j] == m[i..j] && mem[at + |m|..] == rest
  {
    assert mem[at..|mem|] == mem[at..];
    SliceOfSlice(mem, at, |mem|, i, j);
    assert mem[at + |m|..] == mem[at..][|m|..];
  }

  /** Where member `i` of an archive at `at` starts. */
  function Place(es: seq<Entry>, at: nat, i: nat): nat
    requires AllGood(es) && i <= |es|
  {
    if i == 0 then at else Place(es[1..], Behind(es[0], at), i - 1)
  }

  /** The visit of every file carries the address at which the file's bytes are. */
  lemma {:induction false} DataInPlace(mem: seq<Byte>, at: nat, es: seq<Entry>, i: nat)
    requires AllGood(es) && Holds(mem, at, es) && i < |es|
    ensures |AllWanted(es, at)| == |es|
    ensures AllWanted(es, at)[i] ==
            if es[i].flag == 53 then MakeDirectory([47] + es[i].name[..|es[i].name| - 1])
            else CreateFile([47] + es[i].name, Place(es, at, i) + 512, |es[i].data|)
    ensures HasData(mem, Place(es, at, i), es[i].data)
    decreases |es|
  {
    FirstMember(mem, at, es);
    WantedLength(es, at);
    if i > 0 {
      DataInPlace(mem, Behind(es[0], at), es[1..], i - 1);
    }
  }

  lemma {:induction false} WantedLength(es: seq<Entry>, at: nat)
    requires AllGood(es)
    ensures |AllWanted(es, at)| == |es|
  {
    if es != [] {
      WantedLength(es[1..], Behind(es[0], at));
    }
  }
}
