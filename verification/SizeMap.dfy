/** Size classes: their alignment, how many pages their spans have, and the table
    that finds the class of a size. */
module SizeMap {
  import opened Arithmetic
  import opened Common

  const MAX_SIZE := 262144
  const ALIGNMENT := 8
  const SMALL_SIZE := 1024
  const ARRAY_SIZE := 2169
  const NUM_CLASSES := 86

  /** The position of the highest bit of a 32-bit number, found by halving the width five times. */
  method LgFloor(size: nat) returns (log: nat)
    requires 0 < size < 0x1_0000_0000
    ensures Pow2(log) <= size < 2 * Pow2(log)
  {
    hide Pow2;
    log := 0;
    var n, shift := size, 16;
    Widths();
    for i := 5 downto 0
      invariant shift == if i == 5 then 16 else if i == 4 then 8 else if i == 3 then 4 else if i == 2 then 2
                  else if i == 1 then 1 else 0
      invariant 0 < n < (if i == 0 then 2 else Pow2(2 * shift))
      invariant Pow2(log) > 0 && size / Pow2(log) == n
    {
      PowSum(shift, shift);
      PowSum(log, shift);
      var x := n / Pow2(shift);
      if x != 0 {
        DivDiv(size, Pow2(log), Pow2(shift));
        Shorter(n, Pow2(shift));
        n := x;
        log := log + shift;
      }
      shift := shift / 2;
    }
    OnePart(size, Pow2(log));
  }

  lemma Widths()
    ensures Pow2(0) == 1 && Pow2(1) == 2 && Pow2(2) == 4 && Pow2(4) == 16 && Pow2(8) == 256 && Pow2(16) == 65536
    ensures Pow2(32) == 0x1_0000_0000
  {
    PowSum(2, 2); PowSum(4, 4); PowSum(8, 8); PowSum(16, 16);
  }

  lemma Shorter(n: nat, p: nat)
    requires p > 0 && n < p * p
    ensures n / p < p
  {
    var q := n / p;
    assert n == q * p + n % p;
    assert q >= p ==> q * p >= p * p;
  }

  lemma OnePart(size: nat, p: nat)
    requires p > 0 && size / p == 1
    ensures p <= size < 2 * p
  {
  }

  /** The alignment of a size, as a table. */
  function Alignment(size: nat): (a: nat)
    ensures 0 < a <= PAGE_SIZE
  {
    if size >= 65536 then 8192
    else if size >= 32768 then 4096
    else if size >= 16384 then 2048
    else if size >= 8192 then 1024
    else if size >= 4096 then 512
    else if size >= 2048 then 256
    else if size >= 1024 then 128
    else if size >= 512 then 64
    else if size >= 256 then 32
    else if size >= 16 then 16
    else 8
  }

  /** The alignment as it is computed: an eighth of the highest power of two in the size. */
  method AlignmentForSize(size: nat) returns (alignment: nat)
    ensures alignment == Alignment(size) && (size >= 128 ==> 8 * alignment <= size) && (size >= 16 ==> alignment >= 16)
  {
    alignment := ALIGNMENT;
    if size > MAX_SIZE {
      alignment := PAGE_SIZE;
    } else if size >= 128 {
      var log := LgFloor(size);
      alignment := Pow2(log) / 8;
      EighthOf(size, log);
    } else if size >= 16 {
      alignment := 16;
    }
    if alignment > PAGE_SIZE {
      alignment := PAGE_SIZE;
    }
  }

  lemma EighthOf(size: nat, log: nat)
    requires Pow2(log) <= size < 2 * Pow2(log) && 128 <= size <= MAX_SIZE
    ensures var a := Pow2(log) / 8; (if a > PAGE_SIZE then PAGE_SIZE else a) == Alignment(size)
  {
    hide Alignment;
    Octaves();
    PowUnique(log, OctaveOf(size), size);
    AlignmentByOctave(size);
  }

  function OctaveOf(size: nat): nat {
    if size >= 262144 then 18 else if size >= 131072 then 17 else if size >= 65536 then 16 else if size >= 32768 then 15
    else if size >= 16384 then 14 else if size >= 8192 then 13 else if size >= 4096 then 12 else if size >= 2048 then 11
    else if size >= 1024 then 10 else if size >= 512 then 9 else if size >= 256 then 8 else 7
  }

  lemma Octaves()
    ensures Pow2(7) == 128 && Pow2(8) == 256 && Pow2(9) == 512 && Pow2(10) == 1024 && Pow2(11) == 2048
    ensures Pow2(12) == 4096
    ensures Pow2(13) == 8192 && Pow2(14) == 16384 && Pow2(15) == 32768 && Pow2(16) == 65536 && Pow2(17) == 131072
    ensures Pow2(18) == 262144
  {
    Widths();
    PowSum(4, 3); PowSum(8, 3); PowSum(8, 4); PowSum(8, 5); PowSum(16, 2); PowSum(8, 1); PowSum(8, 2);
    assert Pow2(3) == 8 && Pow2(5) == 32;
  }

  lemma {:induction false} PowMonotone(a: nat, b: nat)
    requires a < b
    ensures 2 * Pow2(a) <= Pow2(b)
  {
    if a + 1 < b { PowMonotone(a, b - 1); }
  }

  lemma PowUnique(a: nat, b: nat, size: nat)
    requires Pow2(a) <= size < 2 * Pow2(a) && Pow2(b) <= size < 2 * Pow2(b)
    ensures a == b
  {
    if a < b { PowMonotone(a, b); } else if b < a { PowMonotone(b, a); }
  }

  lemma AlignmentByOctave(size: nat)
    requires 128 <= size <= MAX_SIZE
    ensures var a := Pow2(OctaveOf(size)) / 8; (if a > PAGE_SIZE then PAGE_SIZE else a) == Alignment(size)
  {
    Octaves();
  }

  /** Going from one size to the next by its alignment keeps sizes aligned, and meets the largest size exactly. */
  lemma SizesStayAligned(size: nat)
    requires 0 < size <= MAX_SIZE && size % Alignment(size) == 0
    ensures var next := size + Alignment(size); next % Alignment(next) == 0 && (next <= MAX_SIZE || size == MAX_SIZE)
    ensures size % ALIGNMENT == 0 && (size > SMALL_SIZE ==> size % 128 == 0)
  {
    hide Alignment;
    if size >= 65536 {
      LargeSizes(size);
    } else if size < 128 {
      SmallSizes(size);
    } else {
      var a := Alignment(size);
      Octave(size);
      Stride(size, a);
      NextOctave(size);
      Multiple(size, a, 8);
      if size > SMALL_SIZE { Multiple(size, a, 128); }
    }
  }

  lemma LargeSizes(size: nat)
    requires 65536 <= size <= MAX_SIZE && size % Alignment(size) == 0
    ensures var next := size + Alignment(size); next % Alignment(next) == 0 && (next <= MAX_SIZE || size == MAX_SIZE)
    ensures size % 8 == 0 && size % 128 == 0
  {
  }

  lemma Octave(size: nat)
    requires 128 <= size < 65536
    ensures var a := Alignment(size);
              a > 0 && 8 * a <= size < 16 * a && a % 8 == 0 && (size > SMALL_SIZE ==> a % 128 == 0)
  {
  }

  lemma NextOctave(size: nat)
    requires 128 <= size < 65536
    ensures var a := Alignment(size);
            && (size + a < 16 * a ==> Alignment(size + a) == a)
            && (size + a == 16 * a ==> Alignment(size + a) == if size >= 32768 then 8192 else 2 * a)
            && (size >= 32768 ==> 2 * a == 8192)
  {
  }

  lemma SmallSizes(size: nat)
    requires 0 < size < 128 && size % Alignment(size) == 0
    ensures var next := size + Alignment(size); next % Alignment(next) == 0 && next <= 128 && size % 8 == 0
  {
  }

  lemma Multiple(size: nat, a: nat, b: nat)
    requires a > 0 && b > 0 && size % a == 0 && a % b == 0
    ensures size % b == 0
  {
    var q, r := size / a, a / b;
    assert size == q * a && a == r * b;
    assert size == (q * r) * b;
    DivMod(size, b, q * r, 0);
  }

  /** One step within the sizes that share an alignment. */
  lemma Stride(size: nat, a: nat)
    requires a > 0 && size % a == 0 && 8 * a <= size < 16 * a
    ensures (size + a) % a == 0 && size + a <= 16 * a && (16 * a) % (2 * a) == 0
  {
    StepMultiple(size, a);
    DivMod(16 * a, a, 16, 0);
    NextMultiple(size, 16 * a, a);
    DivMod(16 * a, 2 * a, 8, 0);
  }

  /** How many objects to move at a time. */
  function NumMoveSize(size: nat): nat {
    if size == 0 then 0
    else
      var num := 65536 / size;
      if num < 2 then 2 else if num > 32 then 32 else num
  }

  /** A span of this many bytes serves objects of a size well: little waste, and enough objects. */
  predicate Serves(bytes: nat, size: nat)
    requires size > 0
  {
    bytes % size <= bytes / 8 && bytes / size >= NumMoveSize(size) / 4
  }

  /** The least number of pages whose span serves the size. */
  method SpanPages(size: nat) returns (pages: nat)
    requires size > 0
    ensures pages > 0 && Serves(pages * PAGE_SIZE, size)
    ensures forall p | 0 < p < pages :: !Serves(p * PAGE_SIZE, size)
    ensures pages * PAGE_SIZE / size >= 1
  {
    var blocks := NumMoveSize(size) / 4;
    var psize := 0;
    ghost var n := 0;
    while true
      invariant psize == n * PAGE_SIZE && forall p | 0 < p <= n :: !Serves(p * PAGE_SIZE, size)
      decreases Enough(size) - psize
    {
      psize := psize + PAGE_SIZE;
      n := n + 1;
      while psize % size > psize / 8
        invariant n > 0 && psize == n * PAGE_SIZE && forall p | 0 < p < n :: !Serves(p * PAGE_SIZE, size)
        decreases Enough(size) - psize
      {
        NotEnoughYet(size, psize);
        psize := psize + PAGE_SIZE;
        n := n + 1;
      }
      if psize / size >= blocks {
        break;
      }
      NotEnoughYet(size, psize);
    }
    pages := psize / PAGE_SIZE;
    SomeObject(psize, size);
  }

  /** Spans of this many bytes serve the size. */
  ghost function Enough(size: nat): nat { 8 * size }

  lemma NotEnoughYet(size: nat, psize: nat)
    requires size > 0 && !Serves(psize, size)
    ensures psize < Enough(size)
  {
    if psize >= 8 * size {
      EnoughServes(size, psize);
    }
  }

  lemma EnoughServes(size: nat, psize: nat)
    requires size > 0 && psize >= Enough(size)
    ensures Serves(psize, size)
  {
    var q := psize / size;
    assert psize == q * size + psize % size;
    assert q <= 7 ==> q * size <= 7 * size;
  }

  lemma SomeObject(psize: nat, size: nat)
    requires size > 0 && psize > 0 && psize % size <= psize / 8
    ensures psize / size >= 1
  {
    if psize < size {
      DivMod(psize, size, 0, psize);
    }
  }

  /** The span of a class has the fewest pages that serve its size, and at least one object. */
  predicate SpanOk(pages: nat, size: nat) {
    && size > 0 && pages > 0 && Serves(pages * PAGE_SIZE, size) && pages * PAGE_SIZE / size >= 1
    && forall p | 0 < p < pages :: !Serves(p * PAGE_SIZE, size)
  }

  /** Sizes grow from class to class, and are multiples of 8, of 128 above 1024. */
  predicate Ladder(toSize: seq<nat>) {
    && |toSize| > 1 && toSize[0] == 0
    && (forall c | 1 <= c < |toSize| :: toSize[c - 1] < toSize[c])
    && (forall c | 1 <= c < |toSize| :: toSize[c] % 8 == 0 && (toSize[c] > SMALL_SIZE ==> toSize[c] % 128 == 0))
  }

  /** Sizes grow, every class has a fitting span, and no two neighbours should have been merged. */
  ghost predicate Classes(toSize: seq<nat>, toPages: seq<nat>) {
    && |toPages| == |toSize| > 0 && toSize[0] == 0 && (|toSize| > 1 ==> Ladder(toSize))
    && (forall c | 1 <= c < |toSize| :: SpanOk(toPages[c], toSize[c]))
    && (forall c | 2 <= c < |toSize| && toPages[c] == toPages[c - 1] ::
          Objects(toPages[c], toSize[c]) != Objects(toPages[c - 1], toSize[c - 1]))
  }

  /** Chooses the classes.  A size that leaves as many objects in a span as the class before it widens that class
      instead of starting one. */
  method BuildClasses() returns (toSize: seq<nat>, toPages: seq<nat>)
    ensures Classes(toSize, toPages) && |toSize| > 1 && toSize[|toSize| - 1] == MAX_SIZE
    ensures Economical(toSize, toPages, MAX_SIZE + 1) && |toSize| == NUM_CLASSES
  {
    hide Alignment, SpanOk, Objects, Economical, Gap, Classes, Count, Serves;
    toSize, toPages := [0], [0];
    var size := ALIGNMENT;
    CountAll();
    FirstSize();
    FirstEconomical();
    while size <= MAX_SIZE
      invariant size > 0 && size % Alignment(size) == 0 && |toPages| == |toSize| > 0 && Classes(toSize, toPages)
      invariant toSize[|toSize| - 1] < size && (size > MAX_SIZE ==> |toSize| > 1 && toSize[|toSize| - 1] == MAX_SIZE)
      invariant Economical(toSize, toPages, size) && Gap(toSize[|toSize| - 1], size)
      invariant Count(Progress(size, toSize[|toSize| - 1], toPages[|toSize| - 1], |toSize|)) == NUM_CLASSES
      decreases MAX_SIZE + PAGE_SIZE - size
    {
      var alignment := AlignmentForSize(size);
      SizesStayAligned(size);
      var pages := SpanPages(size);
      SpanFits(pages, size);
      var last := |toSize| - 1;
      LastSize(toSize, toPages);
      AdvanceOne(Progress(size, toSize[last], toPages[last], |toSize|), pages);
      if last > 0 && pages == toPages[last] && Objects(pages, size) == Objects(toPages[last], toSize[last]) {
        WidenEconomical(toSize, toPages, size);
        toSize := toSize[last := size];
      } else {
        AddEconomical(toSize, toPages, size, pages);
        toSize, toPages := toSize + [size], toPages + [pages];
      }
      NoneBetween(size);
      NextEconomical(toSize, toPages, size, size + alignment);
      size := size + alignment;
    }
    AllEconomical(toSize, toPages, size);
    CountDone(Progress(size, toSize[|toSize| - 1], toPages[|toSize| - 1], |toSize|));
  }

  // How many classes there are.

  /** The least number of pages, from `p` on, whose span serves the size. */
  function LeastPages(size: nat, p: nat): nat
    requires size > 0 && p > 0
    decreases Enough(size) - p * PAGE_SIZE
  {
    if Serves(p * PAGE_SIZE, size) then p else NotEnoughYet(size, p * PAGE_SIZE); LeastPages(size, p + 1)
  }

  lemma {:induction false} LeastPagesIs(size: nat, p: nat, pages: nat)
    requires SpanOk(pages, size) && 0 < p <= pages
    ensures LeastPages(size, p) == pages
    decreases pages - p
  {
    if p < pages {
      assert !Serves(p * PAGE_SIZE, size);
      LeastPagesIs(size, p + 1, pages);
    }
  }

  /** The same, with the first `k` of eight tries written out. */
  function LeastOf(size: nat, k: nat): nat
    requires size > 0 && k <= 8
  {
    if k == 0 then LeastPages(size, 9) else if Serves((9 - k) * PAGE_SIZE, size) then 9 - k else LeastOf(size, k - 1)
  }

  lemma {:induction false} LeastOfIs(size: nat, k: nat)
    requires size > 0 && k <= 8
    ensures LeastOf(size, k) == LeastPages(size, 9 - k)
  {
    if k > 0 { LeastOfIs(size, k - 1); }
  }

  /** How far the choice of classes has come: the next size, the size and the pages of the last class, and the
      number of classes. */
  datatype Progress = Progress(size: nat, last: nat, pages: nat, n: nat)

  function Advance(x: Progress): Progress
    requires x.size > 0
  {
    var pages := LeastOf(x.size, 8);
    var same := x.last > 0 && pages == x.pages && Objects(pages, x.size) == Objects(x.pages, x.last);
    Progress(x.size + Alignment(x.size), x.size, pages, if same then x.n else x.n + 1)
  }

  /** The number of classes in the end. */
  function Count(x: Progress): nat
    requires x.size > 0
    decreases MAX_SIZE + PAGE_SIZE - x.size
  {
    if x.size > MAX_SIZE then x.n else Count(Advance(x))
  }

  /** One turn of the loop, at sizes for which it can be worked out. */
  lemma Go(size: nat, last: nat, lastPages: nat, n: nat, next: nat, pages: nat, m: nat)
    requires 0 < size <= MAX_SIZE && Advance(Progress(size, last, lastPages, n)) == Progress(next, size, pages, m)
    ensures Count(Progress(size, last, lastPages, n)) == Count(Progress(next, size, pages, m))
  {
    hide Advance;
  }

  lemma CountTo128()
    ensures Count(Progress(8, 0, 0, 1)) == Count(Progress(128, 112, 1, 9))
  {
    hide Count, LeastPages;
    Go(8, 0, 0, 1, 16, 1, 2); Go(16, 8, 1, 2, 32, 1, 3); Go(32, 16, 1, 3, 48, 1, 4); Go(48, 32, 1, 4, 64, 1, 5);
    Go(64, 48, 1, 5, 80, 1, 6); Go(80, 64, 1, 6, 96, 1, 7); Go(96, 80, 1, 7, 112, 1, 8); Go(112, 96, 1, 8, 128, 1, 9);
  }

  lemma CountTo256()
    ensures Count(Progress(128, 112, 1, 9)) == Count(Progress(256, 240, 1, 17))
  {
    hide Count, LeastPages;
    Go(128, 112, 1, 9, 144, 1, 10); Go(144, 128, 1, 10, 160, 1, 11); Go(160, 144, 1, 11, 176, 1, 12);
    Go(176, 160, 1, 12, 192, 1, 13); Go(192, 176, 1, 13, 208, 1, 14); Go(208, 192, 1, 14, 224, 1, 15);
    Go(224, 208, 1, 15, 240, 1, 16); Go(240, 224, 1, 16, 256, 1, 17);
  }

  lemma CountTo512()
    ensures Count(Progress(256, 240, 1, 17)) == Count(Progress(512, 480, 1, 25))
  {
    hide Count, LeastPages;
    Go(256, 240, 1, 17, 288, 1, 18); Go(288, 256, 1, 18, 320, 1, 19); Go(320, 288, 1, 19, 352, 1, 20);
    Go(352, 320, 1, 20, 384, 1, 21); Go(384, 352, 1, 21, 416, 1, 22); Go(416, 384, 1, 22, 448, 1, 23);
    Go(448, 416, 1, 23, 480, 1, 24); Go(480, 448, 1, 24, 512, 1, 25);
  }

  lemma CountTo1024()
    ensures Count(Progress(512, 480, 1, 25)) == Count(Progress(1024, 960, 1, 32))
  {
    hide Count, LeastPages;
    Go(512, 480, 1, 25, 576, 1, 26); Go(576, 512, 1, 26, 640, 1, 27); Go(640, 576, 1, 27, 704, 1, 28);
    Go(704, 640, 1, 28, 768, 1, 29); Go(768, 704, 1, 29, 832, 1, 30); Go(832, 768, 1, 30, 896, 1, 31);
    Go(896, 832, 1, 31, 960, 1, 31); Go(960, 896, 1, 31, 1024, 1, 32);
  }

  lemma CountTo2048()
    ensures Count(Progress(1024, 960, 1, 32)) == Count(Progress(2048, 1920, 2, 38))
  {
    hide Count, LeastPages;
    Go(1024, 960, 1, 32, 1152, 1, 32); Go(1152, 1024, 1, 32, 1280, 2, 33); Go(1280, 1152, 2, 33, 1408, 2, 34);
    Go(1408, 1280, 2, 34, 1536, 2, 35); Go(1536, 1408, 2, 35, 1664, 2, 36); Go(1664, 1536, 2, 36, 1792, 2, 37);
    Go(1792, 1664, 2, 37, 1920, 2, 37); Go(1920, 1792, 2, 37, 2048, 2, 38);
  }

  lemma CountTo4096()
    ensures Count(Progress(2048, 1920, 2, 38)) == Count(Progress(4096, 3840, 2, 44))
  {
    hide Count, LeastPages;
    Go(2048, 1920, 2, 38, 2304, 2, 38); Go(2304, 2048, 2, 38, 2560, 2, 39); Go(2560, 2304, 2, 39, 2816, 2, 40);
    Go(2816, 2560, 2, 40, 3072, 3, 41); Go(3072, 2816, 3, 41, 3328, 2, 42); Go(3328, 3072, 2, 42, 3584, 3, 43);
    Go(3584, 3328, 3, 43, 3840, 2, 44); Go(3840, 3584, 2, 44, 4096, 2, 44);
  }

  lemma CountTo6144()
    ensures Count(Progress(4096, 3840, 2, 44)) == Count(Progress(6144, 5632, 3, 47))
  {
    hide Count, LeastPages;
    Go(4096, 3840, 2, 44, 4608, 2, 44); Go(4608, 4096, 2, 44, 5120, 3, 45); Go(5120, 4608, 3, 45, 5632, 2, 46);
    Go(5632, 5120, 2, 46, 6144, 3, 47);
  }

  lemma CountTo8192()
    ensures Count(Progress(6144, 5632, 3, 47)) == Count(Progress(8192, 7680, 2, 49))
  {
    hide Count, LeastPages;
    Go(6144, 5632, 3, 47, 6656, 3, 47); Go(6656, 6144, 3, 47, 7168, 5, 48); Go(7168, 6656, 5, 48, 7680, 2, 49);
    Go(7680, 7168, 2, 49, 8192, 2, 49);
  }

  lemma CountTo12288()
    ensures Count(Progress(8192, 7680, 2, 49)) == Count(Progress(12288, 11264, 3, 52))
  {
    hide Count, LeastPages;
    Go(8192, 7680, 2, 49, 9216, 2, 49); Go(9216, 8192, 2, 49, 10240, 5, 50); Go(10240, 9216, 5, 50, 11264, 4, 51);
    Go(11264, 10240, 4, 51, 12288, 3, 52);
  }

  lemma CountTo16384()
    ensures Count(Progress(12288, 11264, 3, 52)) == Count(Progress(16384, 15360, 2, 54))
  {
    hide Count, LeastPages;
    Go(12288, 11264, 3, 52, 13312, 3, 52); Go(13312, 12288, 3, 52, 14336, 5, 53);
    Go(14336, 13312, 5, 53, 15360, 2, 54); Go(15360, 14336, 2, 54, 16384, 2, 54);
  }

  lemma CountTo24576()
    ensures Count(Progress(16384, 15360, 2, 54)) == Count(Progress(24576, 22528, 3, 56))
  {
    hide Count, LeastPages;
    Go(16384, 15360, 2, 54, 18432, 2, 54); Go(18432, 16384, 2, 54, 20480, 5, 55);
    Go(20480, 18432, 5, 55, 22528, 5, 55); Go(22528, 20480, 5, 55, 24576, 3, 56);
  }

  lemma CountTo32768()
    ensures Count(Progress(24576, 22528, 3, 56)) == Count(Progress(32768, 30720, 4, 58))
  {
    hide Count, LeastPages;
    Go(24576, 22528, 3, 56, 26624, 3, 56); Go(26624, 24576, 3, 56, 28672, 7, 57);
    Go(28672, 26624, 7, 57, 30720, 4, 58); Go(30720, 28672, 4, 58, 32768, 4, 58);
  }

  lemma CountTo45056()
    ensures Count(Progress(32768, 30720, 4, 58)) == Count(Progress(45056, 40960, 5, 59))
  {
    hide Count, LeastPages;
    Go(32768, 30720, 4, 58, 36864, 4, 58); Go(36864, 32768, 4, 58, 40960, 5, 59);
    Go(40960, 36864, 5, 59, 45056, 5, 59);
  }

  lemma CountTo57344()
    ensures Count(Progress(45056, 40960, 5, 59)) == Count(Progress(57344, 53248, 7, 61))
  {
    hide Count, LeastPages;
    Go(45056, 40960, 5, 59, 49152, 6, 60); Go(49152, 45056, 6, 60, 53248, 6, 60);
    Go(53248, 49152, 6, 60, 57344, 7, 61);
  }

  lemma CountTo73728()
    ensures Count(Progress(57344, 53248, 7, 61)) == Count(Progress(73728, 65536, 8, 62))
  {
    hide Count, LeastPages;
    Go(57344, 53248, 7, 61, 61440, 7, 61); Go(61440, 57344, 7, 61, 65536, 8, 62);
    Go(65536, 61440, 8, 62, 73728, 8, 62);
  }

  /** Above the last regular stride every size has a class of its own, of one object per span. */
  lemma {:induction false} CountLarge(q: nat, n: nat)
    requires 9 <= q <= 33
    ensures Count(Progress(8192 * q, 8192 * (q - 1), q - 1, n)) == n + 33 - q
    decreases 33 - q
  {
    hide Count, Advance;
    var x := Progress(8192 * q, 8192 * (q - 1), q - 1, n);
    if q <= 32 {
      OneObject(q);
      LeastPagesIs(8192 * q, 1, q);
      LeastOfIs(8192 * q, 8);
      LargeAdvance(q, n);
      Go(8192 * q, 8192 * (q - 1), q - 1, n, 8192 * (q + 1), q, n + 1);
      CountLarge(q + 1, n + 1);
    } else {
      CountDone(x);
    }
  }

  lemma CountDone(x: Progress)
    requires x.size > MAX_SIZE
    ensures Count(x) == x.n
  {
  }

  lemma LargeAdvance(q: nat, n: nat)
    requires 9 <= q <= 32 && LeastOf(8192 * q, 8) == q
    ensures Advance(Progress(8192 * q, 8192 * (q - 1), q - 1, n)) == Progress(8192 * (q + 1), 8192 * q, q, n + 1)
  {
    hide LeastOf, LeastPages;
  }

  lemma OneObject(q: nat)
    requires 9 <= q <= 32
    ensures SpanOk(q, 8192 * q)
  {
    forall p | 0 < p < q ensures !Serves(p * PAGE_SIZE, 8192 * q) {
      DivMod(p * PAGE_SIZE, 8192 * q, 0, p * PAGE_SIZE);
    }
  }

  /** One turn of the loop, for any size. */
  lemma AdvanceOne(x: Progress, pages: nat)
    requires 0 < x.size <= MAX_SIZE && SpanOk(pages, x.size)
    ensures var same := x.last > 0 && pages == x.pages && Objects(pages, x.size) == Objects(x.pages, x.last);
            Count(x) == Count(Progress(x.size + Alignment(x.size), x.size, pages, if same then x.n else x.n + 1))
  {
    hide LeastPages, LeastOf, Objects, SpanOk;
    LeastPagesIs(x.size, 1, pages) by { PagesPositive(pages, x.size); }
    LeastOfIs(x.size, 8);
  }

  lemma PagesPositive(pages: nat, size: nat)
    requires SpanOk(pages, size)
    ensures pages > 0
  {
  }

  lemma CountAll()
    ensures Count(Progress(8, 0, 0, 1)) == NUM_CLASSES
  {
    hide Count;
    CountTo128(); CountTo256(); CountTo512(); CountTo1024(); CountTo2048(); CountTo4096(); CountTo6144(); CountTo8192();
    CountTo12288(); CountTo16384(); CountTo24576(); CountTo32768(); CountTo45056(); CountTo57344(); CountTo73728();
    CountLarge(9, 62);
  }

  lemma LastSize(toSize: seq<nat>, toPages: seq<nat>)
    requires Classes(toSize, toPages)
    ensures |toSize| > 1 <==> toSize[|toSize| - 1] > 0
  {
  }

  /** How many objects of a size fit in so many pages. */
  function Objects(pages: nat, size: nat): nat { if size == 0 then 0 else pages * PAGE_SIZE / size }

  /** Sharing a class costs nothing: each size below the limit that the loop looks at would have got the same pages, and
      as many objects from them, in a class of its own. */
  ghost predicate Economical(toSize: seq<nat>, toPages: seq<nat>, limit: nat) {
    |toPages| == |toSize| && forall s: nat, c: nat | 0 < s < limit && s % Alignment(s) == 0 && IsClass(toSize, s, c) ::
      toSize[c] > 0 && SpanOk(toPages[c], s) && Objects(toPages[c], s) == Objects(toPages[c], toSize[c])
  }

  lemma FirstEconomical()
    ensures Economical([0], [0], ALIGNMENT) && Gap(0, ALIGNMENT) && Classes([0], [0])
  {
  }

  /** No size in between is one that the loop looks at. */
  ghost predicate Gap(a: nat, b: nat) {
    forall s: nat | a < s < b :: s % Alignment(s) != 0
  }

  lemma NoneBetween(size: nat)
    requires 0 < size <= MAX_SIZE && size % Alignment(size) == 0
    ensures Gap(size, size + Alignment(size))
  {
    hide Alignment;
    forall s: nat | size < s < size + Alignment(size) ensures s % Alignment(s) != 0 {
      SameStride(size, s);
      if s % Alignment(size) == 0 { NextMultiple(size, s, Alignment(size)); }
    }
  }

  lemma SameStride(size: nat, s: nat)
    requires 0 < size <= MAX_SIZE && size % Alignment(size) == 0 && size < s < size + Alignment(size)
    ensures Alignment(s) == Alignment(size)
  {
    hide Alignment;
    if size >= 65536 {
      LargeStride(size, s);
    } else if size < 128 {
      SmallStride(size, s);
    } else {
      Octave(size);
      Stride(size, Alignment(size));
      OctaveOnly(size, s);
    }
  }

  lemma LargeStride(size: nat, s: nat)
    requires 65536 <= size <= s
    ensures Alignment(s) == Alignment(size)
  {
  }

  lemma SmallStride(size: nat, s: nat)
    requires 0 < size < 128 && size % Alignment(size) == 0 && size < s < size + Alignment(size)
    ensures Alignment(s) == Alignment(size)
  {
  }

  lemma OctaveOnly(size: nat, s: nat)
    requires 128 <= size < 65536 && size <= s < 16 * Alignment(size)
    ensures Alignment(s) == Alignment(size)
  {
  }

  lemma WidenEconomical(toSize: seq<nat>, toPages: seq<nat>, size: nat)
    requires |toSize| > 1 && Classes(toSize, toPages) && Economical(toSize, toPages, size)
    requires toSize[|toSize| - 1] < size && Gap(toSize[|toSize| - 1], size) && size % 8 == 0
    requires (size > SMALL_SIZE ==> size % 128 == 0)
    requires var last := |toSize| - 1;
               SpanOk(toPages[last], size) && Objects(toPages[last], size) == Objects(toPages[last], toSize[last])
    ensures var wide := toSize[|toSize| - 1 := size]; Classes(wide, toPages) && Economical(wide, toPages, size + 1)
  {
    hide Alignment, SpanOk, Objects;
    var wide := toSize[|toSize| - 1 := size];
    forall s: nat, c: nat | 0 < s < size + 1 && s % Alignment(s) == 0 && IsClass(wide, s, c)
      ensures wide[c] > 0 && SpanOk(toPages[c], s) && Objects(toPages[c], s) == Objects(toPages[c], wide[c])
    {
      if s < size {
        assert IsClass(toSize, s, c);
      } else if c < |toSize| - 1 {
        Below(toSize, c, |toSize| - 1);
      }
    }
  }

  lemma AddEconomical(toSize: seq<nat>, toPages: seq<nat>, size: nat, pages: nat)
    requires Classes(toSize, toPages) && Economical(toSize, toPages, size) && size > 0 && SpanOk(pages, size)
    requires toSize[|toSize| - 1] < size && Gap(toSize[|toSize| - 1], size) && size % 8 == 0
    requires (size > SMALL_SIZE ==> size % 128 == 0)
    requires var last := |toSize| - 1;
               last == 0 || pages != toPages[last] || Objects(pages, size) != Objects(toPages[last], toSize[last])
    ensures Classes(toSize + [size], toPages + [pages]) && Economical(toSize + [size], toPages + [pages], size + 1)
  {
    hide Alignment, SpanOk, Objects;
    var more := toSize + [size];
    forall s: nat, c: nat | 0 < s < size + 1 && s % Alignment(s) == 0 && IsClass(more, s, c)
      ensures more[c] > 0 && SpanOk((toPages + [pages])[c], s)
      ensures Objects((toPages + [pages])[c], s) == Objects((toPages + [pages])[c], more[c])
    {
      if c < |toSize| {
        assert more[c] == toSize[c] && more[c - 1] == toSize[c - 1];
        if s < size {
          assert IsClass(toSize, s, c);
        } else {
          Below(toSize, c, |toSize| - 1);
        }
      } else if c > 1 {
        assert more[c - 1] == toSize[c - 1];
      }
    }
  }

  lemma {:induction false} Below(toSize: seq<nat>, a: nat, b: nat)
    requires Ladder(toSize) && a <= b < |toSize|
    ensures toSize[a] <= toSize[b]
    decreases b
  {
    if a < b { Below(toSize, a, b - 1); }
  }

  lemma NextEconomical(toSize: seq<nat>, toPages: seq<nat>, size: nat, next: nat)
    requires Economical(toSize, toPages, size + 1) && Gap(size, next)
    ensures Economical(toSize, toPages, next)
  {
    hide Alignment, SpanOk, Objects, IsClass;
  }

  lemma AllEconomical(toSize: seq<nat>, toPages: seq<nat>, size: nat)
    requires Economical(toSize, toPages, size) && size > MAX_SIZE
    ensures Economical(toSize, toPages, MAX_SIZE + 1)
  {
    hide Alignment, SpanOk, Objects, IsClass;
  }

  lemma FirstSize()
    ensures ALIGNMENT % Alignment(ALIGNMENT) == 0
  {
  }

  lemma SpanFits(pages: nat, size: nat)
    requires size > 0 && pages > 0 && Serves(pages * PAGE_SIZE, size) && pages * PAGE_SIZE / size >= 1
    requires forall p | 0 < p < pages :: !Serves(p * PAGE_SIZE, size)
    ensures SpanOk(pages, size)
  {
  }

  /** The place of a size in the lookup table. */
  function ClassIndex(size: nat): nat {
    if size > SMALL_SIZE then (size + 127 + 15360) / 128 else (size + 7) / 8
  }

  /** The smallest class that a size fits in. */
  predicate IsClass(toSize: seq<nat>, size: nat, c: nat) {
    1 <= c < |toSize| && size <= toSize[c] && (c > 1 ==> toSize[c - 1] < size)
  }

  lemma IndexInRange(size: nat)
    requires size <= MAX_SIZE
    ensures ClassIndex(size) < ARRAY_SIZE
  {
  }

  /** Sizes that share a place in the table share a class. */
  lemma SamePlace(toSize: seq<nat>, c: nat, s: nat, size: nat)
    requires Ladder(toSize) && IsClass(toSize, s, c) && s % 8 == 0 && s <= MAX_SIZE && size <= s
    ensures ClassIndex(size) == ClassIndex(s) ==> IsClass(toSize, size, c)
    ensures size + 8 > s ==> ClassIndex(size) == ClassIndex(s)
  {
    assert toSize[c - 1] % 8 == 0;
    if s <= SMALL_SIZE {
      SamePlaceSmall(s, size, toSize[c - 1]);
    } else {
      SamePlaceLarge(s, size, toSize[c - 1]);
    }
  }

  lemma SamePlaceSmall(s: nat, size: nat, below: nat)
    requires s % 8 == 0 && size <= s <= SMALL_SIZE && below % 8 == 0
    ensures ClassIndex(size) == ClassIndex(s) && below < s ==> below < size || below == 0
    ensures size + 8 > s ==> ClassIndex(size) == ClassIndex(s)
  {
    var q := s / 8;
    assert s == 8 * q;
  }

  lemma SamePlaceLarge(s: nat, size: nat, below: nat)
    requires s % 8 == 0 && size <= s && s > SMALL_SIZE && below % 8 == 0 && (below > SMALL_SIZE ==> below % 128 == 0)
    ensures ClassIndex(size) == ClassIndex(s) && below < s ==> below < size || below == 0
    ensures size + 8 > s ==> ClassIndex(size) == ClassIndex(s)
  {
    var q := (s - 1) / 128;
  }

  /** Fills the lookup table: each size gets the smallest class it fits in. */
  method FillClassArray(toSize: seq<nat>) returns (classArray: array<nat>)
    requires Ladder(toSize) && toSize[|toSize| - 1] == MAX_SIZE
    ensures classArray.Length == ARRAY_SIZE
    ensures forall size: nat | size <= MAX_SIZE ::
              ClassIndex(size) < ARRAY_SIZE && IsClass(toSize, size, classArray[ClassIndex(size)])
  {
    hide ClassIndex, Filled, Ladder;
    classArray := new nat[ARRAY_SIZE](_ => 0);
    NoneFilled(toSize, classArray[..]);
    LadderLength(toSize);
    var next := 0;
    for c := 1 to |toSize|
      invariant classArray.Length == ARRAY_SIZE && next % 8 == 0
      invariant if c == 1 then next == 0 else next == toSize[c - 1] + ALIGNMENT
      invariant Filled(toSize, classArray[..], next)
    {
      SizeBound(toSize, c);
      var s := next;
      while s <= toSize[c]
        invariant s % 8 == 0 && next <= s <= toSize[c] + ALIGNMENT && Filled(toSize, classArray[..], s)
      {
        IndexInRange(s);
        FillOne(toSize, classArray[..], c, s);
        ghost var filled := classArray[..][ClassIndex(s) := c];
        classArray[ClassIndex(s)] := c;
        assert classArray[..] == filled;
        NextEight(s);
        s := s + ALIGNMENT;
      }
      next := toSize[c] + ALIGNMENT;
    }
    AllFilled(toSize, classArray[..]);
  }

  lemma LadderLength(toSize: seq<nat>)
    requires Ladder(toSize)
    ensures |toSize| > 1
  {
  }

  lemma NextEight(s: nat)
    requires s % 8 == 0
    ensures (s + 8) % 8 == 0
  {
  }

  /** All sizes up to the last multiple of eight before `next` have their class. */
  ghost predicate Filled(toSize: seq<nat>, a: seq<nat>, next: nat) {
    && |a| == ARRAY_SIZE
    && forall size: nat | size <= MAX_SIZE && size + 8 <= next ::
        ClassIndex(size) < |a| && IsClass(toSize, size, a[ClassIndex(size)])
  }

  lemma NoneFilled(toSize: seq<nat>, a: seq<nat>)
    requires |a| == ARRAY_SIZE
    ensures Filled(toSize, a, 0)
  {
  }

  lemma SizeBound(toSize: seq<nat>, c: nat)
    requires Ladder(toSize) && toSize[|toSize| - 1] == MAX_SIZE && 1 <= c < |toSize|
    ensures toSize[c] <= MAX_SIZE && toSize[c] % 8 == 0 && (toSize[c] + 8) % 8 == 0 && toSize[c - 1] < toSize[c]
    decreases |toSize| - c
  {
    if c + 1 < |toSize| { SizeBound(toSize, c + 1); }
  }

  lemma FillOne(toSize: seq<nat>, a: seq<nat>, c: nat, s: nat)
    requires Ladder(toSize) && Filled(toSize, a, s) && IsClass(toSize, s, c) && s % 8 == 0 && s <= MAX_SIZE
    requires ClassIndex(s) < |a|
    ensures Filled(toSize, a[ClassIndex(s) := c], s + ALIGNMENT)
  {
    hide ClassIndex, IsClass, Ladder;
    var b := a[ClassIndex(s) := c];
    forall size: nat | size <= MAX_SIZE && size + 8 <= s + ALIGNMENT
      ensures ClassIndex(size) < |b| && IsClass(toSize, size, b[ClassIndex(size)])
    {
      SamePlace(toSize, c, s, size);
    }
  }

  lemma AllFilled(toSize: seq<nat>, a: seq<nat>)
    requires Filled(toSize, a, MAX_SIZE + ALIGNMENT)
    ensures forall size: nat | size <= MAX_SIZE :: ClassIndex(size) < |a| && IsClass(toSize, size, a[ClassIndex(size)])
  {
  }

  class SizeMap {
    var toSize: seq<nat>
    var toPages: seq<nat>
    var toMove: seq<nat>
    var classArray: array<nat>

    constructor ()
    {
      toSize, toPages, toMove := [], [], [];
      classArray := new nat[0];
    }

    /** Sets up all tables, unless the number of classes is not the expected one. */
    method Init(numClasses: nat) returns (ok: bool)
      modifies this
      ensures ok ==> |toSize| == |toPages| == |toMove| == numClasses && classArray.Length == ARRAY_SIZE
      ensures ok ==> forall c | 1 <= c < numClasses ::
                SpanOk(toPages[c], toSize[c]) && toMove[c] == NumMoveSize(toSize[c])
      ensures ok ==> forall size: nat | size <= MAX_SIZE ::
                ClassIndex(size) < ARRAY_SIZE && IsClass(toSize, size, classArray[ClassIndex(size)])
      ensures ok <==> numClasses == NUM_CLASSES
    {
      hide SpanOk, IsClass, ClassIndex, NumMoveSize;
      toSize, toPages := BuildClasses();
      if |toSize| != numClasses {
        return false;
      }
      classArray := FillClassArray(toSize);
      toMove := [0];
      for c := 1 to numClasses
        modifies this`toMove
        invariant |toMove| == c && forall d | 1 <= d < c :: toMove[d] == NumMoveSize(toSize[d])
      {
        toMove := toMove + [NumMoveSize(toSize[c])];
      }
      return true;
    }
  }

  /** Cuts a span into objects: as many as fit, one after the other, with less than one object left over. */
  method CarveObjects(start: nat, pages: nat, size: nat) returns (objects: seq<nat>)
    requires size > 0
    ensures |objects| == pages * PAGE_SIZE / size
    ensures forall i | 0 <= i < |objects| :: objects[i] == start * PAGE_SIZE + i * size
    ensures forall i | 0 <= i < |objects| :: objects[i] + size <= (start + pages) * PAGE_SIZE
    ensures forall i, j | 0 <= i < j < |objects| :: objects[i] + size <= objects[j]
    ensures SpanOk(pages, size) ==> 8 * (pages * PAGE_SIZE - |objects| * size) <= pages * PAGE_SIZE
  {
    objects := [];
    var ptr, limit := start * PAGE_SIZE, start * PAGE_SIZE + pages * PAGE_SIZE;
    while ptr + size <= limit
      invariant ptr == start * PAGE_SIZE + |objects| * size && ptr <= limit
      invariant forall i | 0 <= i < |objects| ::
                  objects[i] == start * PAGE_SIZE + i * size && objects[i] + size <= limit
      invariant forall i, j | 0 <= i < j < |objects| :: objects[i] + size <= objects[j]
      invariant forall i | 0 <= i < |objects| :: objects[i] + size <= ptr
      decreases limit - ptr
    {
      NextObject(|objects|, size);
      objects := objects + [ptr];
      ptr := ptr + size;
    }
    DivMod(pages * PAGE_SIZE, size, |objects|, limit - ptr);
  }

  lemma NextObject(n: nat, size: nat)
    ensures (n + 1) * size == n * size + size
  {
  }
}
