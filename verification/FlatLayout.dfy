/** The bare-metal layout: three sections placed in two regions, and the flat image of them. Addresses are 32-bit, sums
    are taken in 64 bits. A missing slice, Go's nil, differs from an empty one. */
module FlatLayout {
  import opened Bytes

  const LIMIT: int := 0x1_0000_0000

  type Address = x: int | 0 <= x < 0x1_0000_0000

  datatype Slice = Nil | Bytes(bytes: seq<byte>)

  datatype Region = Region(name: string, origin: Address, length: Address, permissions: nat)

  datatype Section = Section(name: string, origin: Address, length: Address, permissions: nat, data: Slice)

  datatype Layout = Layout(regions: seq<Region>, sections: seq<Section>)

  datatype Error = InvalidAlignment | RegionOverflow | SectionOverlap

  datatype Result<T> = Ok(value: T) | Err(error: Error)

  function Content(s: Slice): seq<byte> {
    match s
    case Nil => []
    case Bytes(b) => b
  }

  function Align4(value: nat): (a: nat)
    ensures a % 4 == 0 && value <= a < value + 4
  {
    value + 3 - (value + 3) % 4
  }

  /** Where the sections go, as the program computes it: text at the start of flash, data at the start of RAM, bss
      behind data. */
  function NewLayout(flash: Region, ram: Region, text: Slice, data: Slice, bssSize: Address): Result<Layout> {
    if flash.origin % 4 != 0 || ram.origin % 4 != 0 then Err(InvalidAlignment)
    else PlaceAll(flash, ram, text, data, Align4(flash.origin), Align4(|Content(text)|), Align4(ram.origin),
                  Align4(|Content(data)|), Align4(bssSize))
  }

  function PlaceAll(flash: Region, ram: Region, text: Slice, data: Slice, textOrigin: nat, textLength: nat,
                    dataOrigin: nat, dataLength: nat, bssLength: nat): Result<Layout> {
    if textOrigin >= LIMIT || textLength >= LIMIT ||
       (textLength > 0 && textOrigin + textLength > flash.origin + flash.length) then Err(RegionOverflow)
    else if dataOrigin >= LIMIT || dataLength >= LIMIT ||
            (dataLength > 0 && dataOrigin + dataLength > ram.origin + ram.length) then Err(RegionOverflow)
    else
      var bssOrigin := Align4(dataOrigin + dataLength);
      if bssOrigin >= LIMIT || bssLength >= LIMIT ||
         (bssLength > 0 && bssOrigin + bssLength > ram.origin + ram.length) then Err(RegionOverflow)
      else
        Ok(Layout([flash, ram],
                  [Section(".text", textOrigin, textLength, 5, text),
                   Section(".data", dataOrigin, dataLength, 3, data),
                   Section(".bss", bssOrigin, bssLength, 3, Nil)]))
  }

  ghost predicate Inside(s: Section, r: Region) {
    r.origin <= s.origin && s.origin + s.length <= r.origin + r.length
  }

  ghost predicate Aligned(s: Section) {
    s.origin % 4 == 0 && s.length % 4 == 0
  }

  const READ := 1
  const WRITE := 2
  const EXECUTE := 4

  /** The least multiple of four that is not below `n`. */
  function Rounded(n: nat): nat {
    (n + 3) / 4 * 4
  }

  lemma RoundedIs(n: nat)
    ensures Align4(n) == Rounded(n)
  {
  }

  lemma PlaceAllIff(flash: Region, ram: Region, text: Slice, data: Slice, t: nat, d: nat, b: nat)
    requires Align4(ram.origin + d) == ram.origin + d
    ensures var r := PlaceAll(flash, ram, text, data, flash.origin, t, ram.origin, d, b);
      && (r.Ok? <==>
          t <= flash.length && d <= ram.length && ram.origin + d < LIMIT && (b == 0 || d + b <= ram.length))
      && (r.Err? ==> r.error == RegionOverflow)
  {
  }

  /** When a layout is made: text fits flash, data fits RAM, bss fits what data leaves, and begins at an address that is
      there. Regions that are not aligned are the one error, too little room is the other. */
  lemma LayoutIsMadeIff(flash: Region, ram: Region, text: Slice, data: Slice, bssSize: Address)
    ensures var r := NewLayout(flash, ram, text, data, bssSize);
      var t, d, b := Rounded(|Content(text)|), Rounded(|Content(data)|), Rounded(bssSize);
      var aligned := flash.origin % 4 == 0 && ram.origin % 4 == 0;
      && (r.Ok? <==>
          && aligned && t <= flash.length && d <= ram.length
          && ram.origin + d < 0x1_0000_0000 && (b == 0 || d + b <= ram.length))
      && (r.Err? ==> r.error == if aligned then RegionOverflow else InvalidAlignment)
  {
    RoundedIs(|Content(text)|);
    RoundedIs(|Content(data)|);
    RoundedIs(bssSize);
    MadeIff(flash, ram, text, data, bssSize, Rounded(|Content(text)|), Rounded(|Content(data)|), Rounded(bssSize));
  }

  lemma MadeIff(flash: Region, ram: Region, text: Slice, data: Slice, bssSize: Address, t: nat, d: nat, b: nat)
    requires t == Align4(|Content(text)|) && d == Align4(|Content(data)|) && b == Align4(bssSize)
    ensures var r := NewLayout(flash, ram, text, data, bssSize);
      var aligned := flash.origin % 4 == 0 && ram.origin % 4 == 0;
      && (r.Ok? <==>
          && aligned && t <= flash.length && d <= ram.length
          && ram.origin + d < LIMIT && (b == 0 || d + b <= ram.length))
      && (r.Err? ==> r.error == if aligned then RegionOverflow else InvalidAlignment)
  {
    if flash.origin % 4 == 0 && ram.origin % 4 == 0 {
      AlignedMade(flash, ram, text, data, bssSize, t, d, b);
      AlignedSum(ram.origin, d);
      PlaceAllIff(flash, ram, text, data, t, d, b);
    }
  }

  lemma AlignedMade(flash: Region, ram: Region, text: Slice, data: Slice, bssSize: Address, t: nat, d: nat, b: nat)
    requires flash.origin % 4 == 0 && ram.origin % 4 == 0
    requires t == Align4(|Content(text)|) && d == Align4(|Content(data)|) && b == Align4(bssSize)
    ensures NewLayout(flash, ram, text, data, bssSize) ==
            PlaceAll(flash, ram, text, data, flash.origin, t, ram.origin, d, b)
  {
    AlignedStays(flash.origin);
    AlignedStays(ram.origin);
  }

  lemma AlignedSum(a: nat, b: nat)
    requires a % 4 == 0 && b % 4 == 0
    ensures Align4(a + b) == a + b
  {
    AlignedStays(a + b);
  }

  /** What a successful layout promises. */
  lemma LayoutPlaces(flash: Region, ram: Region, text: Slice, data: Slice, bssSize: Address)
    requires NewLayout(flash, ram, text, data, bssSize).Ok?
    ensures var l := NewLayout(flash, ram, text, data, bssSize).value;
      && |l.sections| == 3 && l.regions == [flash, ram]
      && Aligned(l.sections[0]) && Aligned(l.sections[1]) && Aligned(l.sections[2])
      && |Content(text)| <= l.sections[0].length < |Content(text)| + 4
      && |Content(data)| <= l.sections[1].length < |Content(data)| + 4
      && bssSize <= l.sections[2].length < bssSize + 4
      && l.sections[0].origin == flash.origin && l.sections[1].origin == ram.origin
      && l.sections[2].origin == l.sections[1].origin + l.sections[1].length
      && l.sections[0].data == text && l.sections[1].data == data && l.sections[2].data == Nil
      && l.sections[0].name == ".text" && l.sections[1].name == ".data" && l.sections[2].name == ".bss"
      && l.sections[0].permissions == READ + EXECUTE && l.sections[1].permissions == READ + WRITE
      && l.sections[2].permissions == READ + WRITE
      && (l.sections[0].length > 0 ==> Inside(l.sections[0], flash))
      && (l.sections[1].length > 0 ==> Inside(l.sections[1], ram))
      && (l.sections[2].length > 0 ==> Inside(l.sections[2], ram))
  {
    AlignedStays(flash.origin);
    AlignedStays(ram.origin);
    AlignedStays(ram.origin + Align4(|Content(data)|));
  }

  lemma AlignedStays(value: nat)
    requires value % 4 == 0
    ensures Align4(value) == value
  {
  }

  /** No section reaches beyond the addresses there are. */
  ghost predicate EndsFit(l: Layout) {
    forall k {:trigger l.sections[k]} :: 0 <= k < |l.sections| ==> l.sections[k].origin + l.sections[k].length <= LIMIT
  }

  /** A layout that is made keeps below 2^32 exactly when the sizes asked for do, from where their regions begin. */
  lemma EndsFitIff(flash: Region, ram: Region, text: Slice, data: Slice, bssSize: Address)
    requires NewLayout(flash, ram, text, data, bssSize).Ok?
    ensures EndsFit(NewLayout(flash, ram, text, data, bssSize).value) <==>
            && flash.origin + |Content(text)| <= LIMIT
            && ram.origin + Align4(|Content(data)|) + bssSize <= LIMIT
  {
    var l := NewLayout(flash, ram, text, data, bssSize).value;
    LayoutPlaces(flash, ram, text, data, bssSize);
    UpToLimit(flash.origin, |Content(text)|);
    UpToLimit(l.sections[2].origin, bssSize);
    if EndsFit(l) {
      assert l.sections[0].origin + l.sections[0].length <= LIMIT;
      assert l.sections[2].origin + l.sections[2].length <= LIMIT;
    }
  }

  lemma UpToLimit(origin: nat, size: nat)
    requires origin % 4 == 0
    ensures origin + Align4(size) <= LIMIT <==> origin + size <= LIMIT
  {
  }

  lemma RegionBounds(flash: Region, ram: Region, text: Slice, data: Slice, bssSize: Address)
    requires NewLayout(flash, ram, text, data, bssSize).Ok?
    requires flash.origin + flash.length < LIMIT + 4 && ram.origin + ram.length < LIMIT + 4
    ensures EndsFit(NewLayout(flash, ram, text, data, bssSize).value)
  {
    var l := NewLayout(flash, ram, text, data, bssSize).value;
    LayoutPlaces(flash, ram, text, data, bssSize);
    BelowNext(l.sections[0].origin, l.sections[0].length);
    BelowNext(l.sections[1].origin, l.sections[1].length);
    BelowNext(l.sections[2].origin, l.sections[2].length);
  }

  lemma BelowNext(origin: Address, length: Address)
    requires origin % 4 == 0 && length % 4 == 0 && (length > 0 ==> origin + length < LIMIT + 4)
    ensures origin + length <= LIMIT
  {
  }

  /** What fills a region that reaches far enough. */
  lemma BeyondLimit(flash: Region, ram: Region)
    requires flash.origin % 4 == 0 && ram.origin % 4 == 0
    requires flash.origin + flash.length >= LIMIT + 4 || ram.origin + ram.length >= LIMIT + 4
    ensures exists text, data, bssSize ::
      && NewLayout(flash, ram, text, data, bssSize).Ok?
      && !EndsFit(NewLayout(flash, ram, text, data, bssSize).value)
  {
    if flash.origin + flash.length >= LIMIT + 4 {
      var text := Bytes(Zeros(LIMIT + 4 - flash.origin));
      EndsFitIff(flash, ram, text, Nil, 0);
    } else {
      var bssSize := LIMIT + 4 - ram.origin;
      EndsFitIff(flash, ram, Nil, Nil, bssSize);
    }
  }

  /** For two aligned regions: whatever is placed in them keeps below 2^32 exactly when neither region reaches four
      bytes beyond it. */
  lemma EndsAlwaysFitIff(flash: Region, ram: Region)
    requires flash.origin % 4 == 0 && ram.origin % 4 == 0
    ensures (forall text, data, bssSize :: NewLayout(flash, ram, text, data, bssSize).Ok? ==>
               EndsFit(NewLayout(flash, ram, text, data, bssSize).value)) <==>
            flash.origin + flash.length < LIMIT + 4 && ram.origin + ram.length < LIMIT + 4
  {
    if flash.origin + flash.length < LIMIT + 4 && ram.origin + ram.length < LIMIT + 4 {
      forall text, data, bssSize | NewLayout(flash, ram, text, data, bssSize).Ok?
        ensures EndsFit(NewLayout(flash, ram, text, data, bssSize).value)
      {
        RegionBounds(flash, ram, text, data, bssSize);
      }
    } else {
      BeyondLimit(flash, ram);
    }
  }

  // ---------------------------------------------------------------- sections of a region

  predicate Counts(region: Region, s: Section) {
    && !(s.length == 0 && s.data.Nil?)
    && region.origin <= s.origin < region.origin + region.length
  }

  function Select(region: Region, sections: seq<Section>): seq<Section> {
    if sections == [] then []
    else Select(region, sections[..|sections| - 1]) +
         if Counts(region, sections[|sections| - 1]) then [sections[|sections| - 1]] else []
  }

  /** One pass of the exchange sort: the least of `s[i..]` comes to `i`. */
  function Pass(s: seq<Section>, i: nat, j: nat): (r: seq<Section>)
    requires i < j <= |s|
    ensures |r| == |s|
    decreases |s| - j
  {
    if j == |s| then s
    else Pass(if s[j].origin < s[i].origin then s[i := s[j]][j := s[i]] else s, i, j + 1)
  }

  function SortFrom(s: seq<Section>, i: nat): (r: seq<Section>)
    requires i <= |s|
    ensures |r| == |s|
    decreases |s| - i
  {
    if i == |s| then s else SortFrom(Pass(s, i, i + 1), i + 1)
  }

  function Collected(region: Region, sections: seq<Section>): seq<Section> {
    SortFrom(Select(region, sections), 0)
  }

  ghost predicate SortedFrom(s: seq<Section>, n: nat) {
    forall a, b {:trigger s[a], s[b]} :: 0 <= a < b < |s| && a < n ==> s[a].origin <= s[b].origin
  }

  /** The section at `i` is not behind those after it up to `j`. */
  ghost predicate LeastUpTo(s: seq<Section>, i: nat, j: nat)
    requires i < |s|
  {
    forall k {:trigger s[k]} :: i < k < j && k < |s| ==> s[i].origin <= s[k].origin
  }

  lemma SwapKeeps(s: seq<Section>, i: nat, j: nat)
    requires i < j < |s|
    ensures multiset(s[i := s[j]][j := s[i]]) == multiset(s)
  {
  }

  lemma SwapSorts(s: seq<Section>, i: nat, j: nat, t: seq<Section>)
    requires i < j < |s| && SortedFrom(s, i) && LeastUpTo(s, i, j)
    requires s[j].origin < s[i].origin && t == s[i := s[j]][j := s[i]]
    ensures SortedFrom(t, i) && LeastUpTo(t, i, j + 1)
  {
    forall a, b | 0 <= a < b < |t| && a < i
      ensures t[a].origin <= t[b].origin
    {
      assert t[b] == s[if b == i then j else if b == j then i else b];
    }
  }

  lemma NoSwapSorts(s: seq<Section>, i: nat, j: nat)
    requires i < j < |s| && LeastUpTo(s, i, j) && s[j].origin >= s[i].origin
    ensures LeastUpTo(s, i, j + 1)
  {
  }

  lemma LeastSorts(s: seq<Section>, i: nat)
    requires i < |s| && SortedFrom(s, i) && LeastUpTo(s, i, |s|)
    ensures SortedFrom(s, i + 1)
  {
  }

  lemma {:induction false} PassPermutes(s: seq<Section>, i: nat, j: nat)
    requires i < j <= |s|
    ensures multiset(Pass(s, i, j)) == multiset(s)
    decreases |s| - j
  {
    if j == |s| {
    } else if s[j].origin < s[i].origin {
      SwapKeeps(s, i, j);
      PassPermutes(s[i := s[j]][j := s[i]], i, j + 1);
    } else {
      PassPermutes(s, i, j + 1);
    }
  }

  lemma {:induction false} PassSorts(s: seq<Section>, i: nat, j: nat)
    requires i < j <= |s| && SortedFrom(s, i) && LeastUpTo(s, i, j)
    ensures SortedFrom(Pass(s, i, j), i + 1)
    decreases |s| - j
  {
    if j == |s| {
      LeastSorts(s, i);
    } else if s[j].origin < s[i].origin {
      var t := s[i := s[j]][j := s[i]];
      SwapSorts(s, i, j, t);
      PassSorts(t, i, j + 1);
    } else {
      NoSwapSorts(s, i, j);
      PassSorts(s, i, j + 1);
    }
  }

  lemma {:induction false} SortSorts(s: seq<Section>, i: nat)
    requires i <= |s| && SortedFrom(s, i)
    ensures multiset(SortFrom(s, i)) == multiset(s) && SortedFrom(SortFrom(s, i), |s|)
    decreases |s| - i
  {
    if i < |s| {
      PassPermutes(s, i, i + 1);
      PassSorts(s, i, i + 1);
      SortSorts(Pass(s, i, i + 1), i + 1);
    }
  }

  lemma {:induction false} SelectCounts(region: Region, sections: seq<Section>, x: Section)
    ensures multiset(Select(region, sections))[x] == if Counts(region, x) then multiset(sections)[x] else 0
  {
    if sections != [] {
      var rest, last := sections[..|sections| - 1], sections[|sections| - 1];
      SelectCounts(region, rest, x);
      assert sections == rest + [last];
    }
  }

  /** The sections that begin in the region, as often as they occur, in the order of their addresses. */
  lemma CollectedIsSorted(region: Region, sections: seq<Section>)
    ensures var r := Collected(region, sections);
      && SortedFrom(r, |r|)
      && forall x :: multiset(r)[x] == if Counts(region, x) then multiset(sections)[x] else 0
  {
    SortSorts(Select(region, sections), 0);
    forall x
      ensures multiset(Collected(region, sections))[x] == if Counts(region, x) then multiset(sections)[x] else 0
    {
      SelectCounts(region, sections, x);
    }
  }

  method Collect(region: Region, sections: seq<Section>) returns (result: seq<Section>)
    ensures result == Collected(region, sections)
    ensures SortedFrom(result, |result|)
    ensures forall x :: multiset(result)[x] == if Counts(region, x) then multiset(sections)[x] else 0
  {
    CollectedIsSorted(region, sections);
    result := [];
    for i := 0 to |sections|
      invariant result == Select(region, sections[..i])
    {
      var s := sections[i];
      assert sections[..i + 1][..i] == sections[..i];
      if s.length == 0 && s.data.Nil? {
        continue;
      }
      if s.origin >= region.origin && s.origin < region.origin + region.length {
        result := result + [s];
      }
    }
    assert sections[..|sections|] == sections;
    var count := |result|;
    for i := 0 to count
      invariant |result| == count && SortFrom(result, i) == Collected(region, sections)
    {
      ghost var before := result;
      for j := i + 1 to count
        invariant |result| == count && Pass(result, i, j) == Pass(before, i, i + 1)
      {
        if result[j].origin < result[i].origin {
          result := result[i := result[j]][j := result[i]];
        }
      }
    }
  }

  /** The bytes of the region up to the end of section `n`, or the first error. */
  function SizeOf(region: Region, s: seq<Section>, n: nat): (r: Result<nat>)
    requires n <= |s|
    ensures r.Ok? ==> r.value <= region.length
  {
    if n == 0 then Ok(0)
    else
      match SizeOf(region, s, n - 1)
      case Err(e) => Err(e)
      case Ok(offset) =>
        var last := s[n - 1];
        if last.origin < region.origin then Err(RegionOverflow)
        else if last.origin - region.origin < offset then Err(SectionOverlap)
        else if last.origin - region.origin + last.length > region.length then Err(RegionOverflow)
        else Ok(last.origin - region.origin + last.length)
  }

  method RegionOutputSize(region: Region, s: seq<Section>) returns (r: Result<nat>)
    ensures r == SizeOf(region, s, |s|)
  {
    var offset := 0;
    for i := 0 to |s|
      invariant SizeOf(region, s, i) == Ok(offset)
    {
      if s[i].origin < region.origin {
        SizeFails(region, s, i + 1, |s|);
        return Err(RegionOverflow);
      }
      var relative := s[i].origin - region.origin;
      if relative < offset {
        SizeFails(region, s, i + 1, |s|);
        return Err(SectionOverlap);
      }
      if relative + s[i].length > region.length {
        SizeFails(region, s, i + 1, |s|);
        return Err(RegionOverflow);
      }
      offset := relative + s[i].length;
    }
    return Ok(offset);
  }

  lemma {:induction false} SizeFails(region: Region, s: seq<Section>, n: nat, m: nat)
    requires n <= m <= |s| && SizeOf(region, s, n).Err?
    ensures SizeOf(region, s, m) == SizeOf(region, s, n)
  {
    if n < m {
      SizeFails(region, s, n, m - 1);
    }
  }

  /** Section `k` lies in the region, behind the one before. */
  ghost predicate Stands(region: Region, s: seq<Section>, k: nat)
    requires k < |s|
  {
    Inside(s[k], region) && (k == 0 || s[k - 1].origin + s[k - 1].length <= s[k].origin)
  }

  /** There is a size exactly when all sections stand, and then it reaches to the end of the last; otherwise the first
      that does not decides the error: it overlaps with the one before, or leaves the region. */
  lemma {:induction false} SizeIsOkIff(region: Region, s: seq<Section>, n: nat) returns (k: nat)
    requires n <= |s|
    ensures var r := SizeOf(region, s, n);
      && k <= n && (forall j {:trigger Stands(region, s, j)} :: 0 <= j < k ==> Stands(region, s, j))
      && (r.Ok? <==> k == n)
      && (r.Ok? ==> r.value == if n == 0 then 0 else s[n - 1].origin + s[n - 1].length - region.origin)
      && (r.Err? ==>
          && !Stands(region, s, k)
          && r.error == if region.origin <= s[k].origin && k > 0 && s[k].origin < s[k - 1].origin + s[k - 1].length
                        then SectionOverlap else RegionOverflow)
  {
    k := 0;
    if n > 0 {
      k := SizeIsOkIff(region, s, n - 1);
      if SizeOf(region, s, n).Ok? {
        assert Stands(region, s, n - 1);
        k := n;
      }
    }
  }

  // ---------------------------------------------------------------- the image

  /** A section as it stands in the image: its bytes, then zeros up to its length. */
  function Padded(s: Section): (b: seq<byte>)
    ensures |Content(s.data)| <= s.length ==> |b| == s.length
  {
    var pad := s.length - |Content(s.data)|;
    Content(s.data) + Zeros(if pad > 0 then pad else 0)
  }

  ghost predicate Fits(s: seq<Section>) {
    forall k {:trigger s[k]} :: 0 <= k < |s| ==> |Content(s[k].data)| <= s[k].length
  }

  ghost function RegionImage(region: Region, s: seq<Section>, n: nat): (b: seq<byte>)
    requires n <= |s| && SizeOf(region, s, n).Ok?
  {
    if n == 0 then []
    else
      var gap := s[n - 1].origin - region.origin - SizeOf(region, s, n - 1).value;
      RegionImage(region, s, n - 1) + Zeros(gap) + Padded(s[n - 1])
  }

  lemma {:induction false} ImageSize(region: Region, s: seq<Section>, n: nat)
    requires n <= |s| && Fits(s) && SizeOf(region, s, n).Ok?
    ensures |RegionImage(region, s, n)| == SizeOf(region, s, n).value
  {
    if n > 0 {
      ImageSize(region, s, n - 1);
    }
  }

  function Ordered(l: Layout): (r: seq<Region>)
    requires |l.regions| == 2
    ensures |r| == 2
  {
    if l.regions[1].origin < l.regions[0].origin then [l.regions[1], l.regions[0]] else l.regions
  }

  /** What sizing and writing make of a list of sections. */
  ghost function ListImage(region: Region, s: seq<Section>): Result<seq<byte>> {
    match SizeOf(region, s, |s|)
    case Err(e) => Err(e)
    case Ok(_) => Ok(RegionImage(region, s, |s|))
  }

  ghost function ImageOfRegion(l: Layout, region: Region): Result<seq<byte>> {
    ListImage(region, Collected(region, l.sections))
  }

  ghost function Image(l: Layout): Result<seq<byte>>
    requires |l.regions| == 2
  {
    match ImageOfRegion(l, Ordered(l)[0])
    case Err(e) => Err(e)
    case Ok(low) =>
      match ImageOfRegion(l, Ordered(l)[1])
      case Err(e) => Err(e)
      case Ok(high) => Ok(low + high)
  }

  lemma {:induction false} SelectFits(region: Region, sections: seq<Section>)
    requires Fits(sections)
    ensures Fits(Select(region, sections))
  {
    if sections != [] {
      var rest := sections[..|sections| - 1];
      assert forall k {:trigger rest[k]} :: 0 <= k < |rest| ==> rest[k] == sections[k];
      SelectFits(region, rest);
    }
  }

  lemma {:induction false} PassFits(s: seq<Section>, i: nat, j: nat)
    requires i < j <= |s| && Fits(s)
    ensures Fits(Pass(s, i, j))
    decreases |s| - j
  {
    if j < |s| {
      PassFits(if s[j].origin < s[i].origin then s[i := s[j]][j := s[i]] else s, i, j + 1);
    }
  }

  lemma {:induction false} SortFits(s: seq<Section>, i: nat)
    requires i <= |s| && Fits(s)
    ensures Fits(SortFrom(s, i))
    decreases |s| - i
  {
    if i < |s| {
      PassFits(s, i, i + 1);
      SortFits(Pass(s, i, i + 1), i + 1);
    }
  }

  lemma CollectedFits(region: Region, sections: seq<Section>)
    requires Fits(sections)
    ensures Fits(Collected(region, sections))
  {
    SelectFits(region, sections);
    SortFits(Select(region, sections), 0);
  }

  method CopyBytes(buffer: array<byte>, at: nat, data: seq<byte>)
    requires at + |data| <= buffer.Length
    modifies buffer
    ensures buffer[..] == old(buffer[..at]) + data + old(buffer[at + |data|..])
  {
    for i := 0 to |data|
      invariant buffer[at..at + i] == data[..i]
      invariant forall k :: 0 <= k < at || at + i <= k < buffer.Length ==> buffer[k] == old(buffer[k])
    {
      buffer[at + i] := data[i];
    }
    assert data[..|data|] == data;
    assert buffer[..] == buffer[..at] + buffer[at..at + |data|] + buffer[at + |data|..];
  }

  /** Zeros from `at` on, and the given bytes before. */
  ghost predicate WrittenTo(b: seq<byte>, head: seq<byte>) {
    |head| <= |b| && b == head + Zeros(|b| - |head|)
  }

  lemma Skip(b: seq<byte>, head: seq<byte>, n: nat)
    requires WrittenTo(b, head) && |head| + n <= |b|
    ensures WrittenTo(b, head + Zeros(n))
  {
  }

  lemma Overwrite(b: seq<byte>, head: seq<byte>, data: seq<byte>, c: seq<byte>)
    requires WrittenTo(b, head) && |head| + |data| <= |b| && c == b[..|head|] + data + b[|head| + |data|..]
    ensures WrittenTo(c, head + data)
  {
    assert b[|head| + |data|..] == Zeros(|b| - |head| - |data|);
  }

  /** Writes one section behind what is there. */
  method WriteSection(buffer: array<byte>, at: nat, s: Section, ghost head: seq<byte>) returns (end: nat)
    requires |Content(s.data)| <= s.length && at == |head| && at + s.length <= buffer.Length
    requires WrittenTo(buffer[..], head)
    modifies buffer
    ensures end == at + s.length && WrittenTo(buffer[..], head + Padded(s))
  {
    var data := Content(s.data);
    if |data| > 0 {
      ghost var before := buffer[..];
      CopyBytes(buffer, at, data);
      Overwrite(before, head, data, buffer[..]);
      Skip(buffer[..], head + data, s.length - |data|);
      assert head + data + Zeros(s.length - |data|) == head + Padded(s);
      end := at + |data|;
      var pad := s.length - |data|;
      if pad > 0 {
        end := end + pad;
      }
      return;
    }
    Skip(buffer[..], head, s.length);
    assert [] + Zeros(s.length) == Zeros(s.length);
    end := at + s.length;
  }

  /** The image grows by the gap before the next section and its bytes. */
  lemma NextImage(region: Region, s: seq<Section>, i: nat, offset: nat, head: seq<byte>)
    requires i < |s| && Fits(s) && SizeOf(region, s, i) == Ok(offset) && SizeOf(region, s, i + 1).Ok?
    ensures |RegionImage(region, s, i)| == offset
    ensures var relative := s[i].origin - region.origin;
      && offset <= relative && SizeOf(region, s, i + 1) == Ok(relative + s[i].length)
      && head + RegionImage(region, s, i) + Zeros(relative - offset) + Padded(s[i]) ==
         head + RegionImage(region, s, i + 1)
  {
    ImageSize(region, s, i);
    FourParts(head, RegionImage(region, s, i), Zeros(s[i].origin - region.origin - offset), Padded(s[i]));
  }

  lemma FourParts(a: seq<byte>, b: seq<byte>, c: seq<byte>, d: seq<byte>)
    ensures a + b + c + d == a + (b + c + d)
  {
  }

  /** The next section of a region, with the gap before it. */
  method WriteNext(buffer: array<byte>, base: nat, region: Region, s: seq<Section>, i: nat, offset: nat,
      ghost head: seq<byte>)
    returns (end: nat)
    requires i < |s| && Fits(s) && SizeOf(region, s, i) == Ok(offset) && SizeOf(region, s, i + 1).Ok? && base == |head|
    requires base + SizeOf(region, s, i + 1).value <= buffer.Length
    requires WrittenTo(buffer[..], head + RegionImage(region, s, i))
    modifies buffer
    ensures SizeOf(region, s, i + 1) == Ok(end) && WrittenTo(buffer[..], head + RegionImage(region, s, i + 1))
  {
    NextImage(region, s, i, offset, head);
    ghost var done := head + RegionImage(region, s, i);
    var relative := s[i].origin - region.origin;
    ghost var gap := Zeros(relative - offset);
    Skip(buffer[..], done, relative - offset);
    var at := offset;
    if relative > at {
      at := relative;
    }
    end := WriteSection(buffer, base + at, s[i], done + gap);
    end := end - base;
  }

  /** Writes a region behind the bytes that are already there. */
  method WriteRegionOutput(buffer: array<byte>, base: nat, region: Region, s: seq<Section>, ghost head: seq<byte>)
    requires Fits(s) && SizeOf(region, s, |s|).Ok? && base == |head|
    requires base + SizeOf(region, s, |s|).value <= buffer.Length && WrittenTo(buffer[..], head)
    modifies buffer
    ensures WrittenTo(buffer[..], head + RegionImage(region, s, |s|))
  {
    var offset := 0;
    SizesGrow(region, s, 0, |s|);
    assert head + [] == head;
    for i := 0 to |s|
      invariant SizeOf(region, s, i) == Ok(offset)
      invariant WrittenTo(buffer[..], head + RegionImage(region, s, i))
    {
      SizesGrow(region, s, i + 1, |s|);
      offset := WriteNext(buffer, base, region, s, i, offset, head);
    }
  }

  lemma {:induction false} SizesGrow(region: Region, s: seq<Section>, n: nat, m: nat)
    requires n <= m <= |s| && SizeOf(region, s, m).Ok?
    ensures SizeOf(region, s, n).Ok? && SizeOf(region, s, n).value <= SizeOf(region, s, m).value
  {
    if n < m {
      SizesGrow(region, s, n, m - 1);
    }
  }

  method EmitFlatBinary(l: Layout) returns (r: Result<seq<byte>>)
    requires |l.regions| == 2 && |l.sections| == 3 && Fits(l.sections)
    ensures r == Image(l)
  {
    var ordered := Ordered(l);
    var low := Collect(ordered[0], l.sections);
    var lowSize := RegionOutputSize(ordered[0], low);
    if lowSize.Err? {
      return Err(lowSize.error);
    }
    var high := Collect(ordered[1], l.sections);
    var highSize := RegionOutputSize(ordered[1], high);
    if highSize.Err? {
      return Err(highSize.error);
    }
    CollectedFits(ordered[0], l.sections);
    CollectedFits(ordered[1], l.sections);
    var buffer := new byte[lowSize.value + highSize.value](_ => 0);
    assert buffer[..] == [] + Zeros(buffer.Length);
    WriteRegionOutput(buffer, 0, ordered[0], low, []);
    ghost var lowImage := RegionImage(ordered[0], low, |low|);
    ImageSize(ordered[0], low, |low|);
    ImageSize(ordered[1], high, |high|);
    assert [] + lowImage == lowImage;
    WriteRegionOutput(buffer, lowSize.value, ordered[1], high, lowImage);
    r := Ok(buffer[..]);
    ghost var whole := lowImage + RegionImage(ordered[1], high, |high|);
    assert whole + Zeros(0) == whole;
  }

  // ---------------------------------------------------------------- the image of a layout

  function Total(s: seq<Section>, n: nat): nat
    requires n <= |s|
  {
    if n == 0 then 0 else Total(s, n - 1) + s[n - 1].length
  }

  function Parts(s: seq<Section>, n: nat): (b: seq<byte>)
    requires n <= |s|
    ensures Fits(s) ==> |b| == Total(s, n)
  {
    if n == 0 then [] else Parts(s, n - 1) + Padded(s[n - 1])
  }

  /** Each section begins where the one before ends. */
  ghost predicate Contiguous(region: Region, s: seq<Section>, n: nat)
    requires n <= |s|
  {
    n == 0 || (Contiguous(region, s, n - 1) && s[n - 1].origin == region.origin + Total(s, n - 1))
  }

  lemma {:induction false} ContiguousImage(region: Region, s: seq<Section>, n: nat)
    requires n <= |s| && Fits(s) && Contiguous(region, s, n) && Total(s, n) <= region.length
    ensures SizeOf(region, s, n) == Ok(Total(s, n)) && RegionImage(region, s, n) == Parts(s, n)
  {
    if n > 0 {
      ContiguousImage(region, s, n - 1);
      ImageStep(region, s, n - 1);
    }
  }

  lemma ImageStep(region: Region, s: seq<Section>, n: nat)
    requires n < |s| && Fits(s) && SizeOf(region, s, n) == Ok(Total(s, n)) && RegionImage(region, s, n) == Parts(s, n)
    requires s[n].origin == region.origin + Total(s, n) && Total(s, n) + s[n].length <= region.length
    ensures SizeOf(region, s, n + 1) == Ok(Total(s, n + 1)) && RegionImage(region, s, n + 1) == Parts(s, n + 1)
  {
    var before := Parts(s, n);
    assert before + Zeros(0) == before;
  }

  /** Regions without a common address. */
  predicate Apart(a: Region, b: Region) {
    a.length == 0 || b.length == 0 || a.origin + a.length <= b.origin || b.origin + b.length <= a.origin
  }

  predicate Holds(r: Region, address: int) {
    r.origin <= address < r.origin + r.length
  }

  /** An empty section of an empty region whose address lies in the other region, away from the section borders
      there. */
  predicate Misplaced(flash: Region, ram: Region, text: Section, data: Section, bss: Section) {
    || (text.data == Bytes([]) && flash.length == 0 && Holds(ram, flash.origin)
        && flash.origin != ram.origin && flash.origin != bss.origin && flash.origin != bss.origin + bss.length)
    || (data.data == Bytes([]) && ram.length == 0 && Holds(flash, ram.origin)
        && ram.origin != text.origin + text.length)
  }

  lemma Sort2(a: Section, b: Section)
    ensures SortFrom([a], 0) == [a]
    ensures SortFrom([a, b], 0) == if b.origin < a.origin then [b, a] else [a, b]
  {
    assert Pass([a], 0, 1) == [a] && SortFrom([a], 1) == [a];
    var t := [a, b];
    assert t[0 := t[1]][1 := t[0]] == [b, a];
    var p := Pass(t, 0, 1);
    assert p == Pass(if b.origin < a.origin then [b, a] else t, 0, 2);
    assert p == if b.origin < a.origin then [b, a] else [a, b];
    assert Pass(p, 1, 2) == p && SortFrom(p, 2) == p;
  }

  lemma Sort3(a: Section, b: Section, c: Section)
    requires b.origin <= c.origin
    ensures SortFrom([a, b, c], 0) ==
      if a.origin <= b.origin then [a, b, c] else if a.origin <= c.origin then [b, a, c] else [b, c, a]
  {
    var s := [a, b, c];
    var p := if b.origin < a.origin then [b, a, c] else s;
    assert s[0 := s[1]][1 := s[0]] == [b, a, c];
    assert Pass(s, 0, 1) == Pass(p, 0, 2) == p;
    var q := if c.origin < p[1].origin then [p[0], c, p[1]] else p;
    assert p[1 := p[2]][2 := p[1]] == [p[0], c, p[1]];
    assert Pass(p, 1, 2) == Pass(q, 1, 3) == q;
    assert Pass(q, 2, 3) == q;
    assert SortFrom(p, 1) == SortFrom(q, 2) == SortFrom(q, 3) == q;
  }

  lemma Select3(region: Region, a: Section, b: Section, c: Section)
    ensures Select(region, [a, b, c]) ==
      (if Counts(region, a) then [a] else []) + (if Counts(region, b) then [b] else []) +
      (if Counts(region, c) then [c] else [])
  {
    assert [a, b, c][..2] == [a, b] && [a, b][..1] == [a] && [a][..0] == [];
    var first := if Counts(region, a) then [a] else [];
    assert Select(region, [a]) == [] + first == first;
  }

  /** The three sections stand where a successful layout puts them. */
  ghost predicate Placed(flash: Region, ram: Region, t: Section, d: Section, b: Section) {
    && Apart(flash, ram) && Fits([t, d, b])
    && t.origin == flash.origin && d.origin == ram.origin && b.origin == d.origin + d.length && b.data == Nil
    && (t.length > 0 ==> Inside(t, flash)) && (d.length > 0 ==> Inside(d, ram)) && (b.length > 0 ==> Inside(b, ram))
  }

  predicate Stray(home: Region, other: Region, s: Section) {
    s.data == Bytes([]) && home.length == 0 && Holds(other, home.origin)
  }

  lemma EmptyImage(region: Region, s: seq<Section>, n: nat)
    requires |s| == n + 1 && s[n].data == Bytes([]) && s[n].length == 0 && SizeOf(region, s, n + 1).Ok?
    ensures SizeOf(region, s, n).Ok?
    ensures s[n].origin == region.origin + SizeOf(region, s, n).value ==>
      RegionImage(region, s, n + 1) == RegionImage(region, s, n)
  {
    assert Padded(s[n]) == [];
  }

  lemma EmptyLast(region: Region, s: seq<Section>, n: nat, image: seq<byte>)
    requires |s| == n + 1 && Fits(s) && s[n].data == Bytes([]) && s[n].length == 0 && Holds(region, s[n].origin)
    requires SizeOf(region, s, n) == Ok(|image|) && RegionImage(region, s, n) == image
    ensures ListImage(region, s) == Ok(image) <==> s[n].origin == region.origin + |image|
  {
    if SizeOf(region, s, n + 1).Ok? {
      ImageSize(region, s, n + 1);
      EmptyImage(region, s, n);
    }
  }

  /** An empty section behind the others is seen when it does not begin where they end. */
  lemma StrayBehind(region: Region, s: seq<Section>, a: Section)
    requires Fits(s + [a]) && a.data == Bytes([]) && a.length == 0 && Holds(region, a.origin)
    requires Contiguous(region, s, |s|) && Total(s, |s|) <= region.length
    ensures ListImage(region, s + [a]) == Ok(Parts(s, |s|)) <==> a.origin == region.origin + Total(s, |s|)
  {
    Prefix(region, s, a, |s|);
    ContiguousImage(region, s + [a], |s|);
    EmptyLast(region, s + [a], |s|, Parts(s, |s|));
  }

  lemma {:induction false} Prefix(region: Region, s: seq<Section>, a: Section, n: nat)
    requires n <= |s| && Fits(s + [a]) && Contiguous(region, s, n)
    ensures Fits(s) && Total(s + [a], n) == Total(s, n) && Parts(s + [a], n) == Parts(s, n)
    ensures Contiguous(region, s + [a], n)
  {
    assert forall k {:trigger s[k]} :: 0 <= k < |s| ==> (s + [a])[k] == s[k];
    if n > 0 {
      Prefix(region, s, a, n - 1);
    }
  }

  lemma PartsOne(a: Section)
    requires Fits([a])
    ensures Total([a], 1) == a.length && Parts([a], 1) == Padded(a)
  {
    assert Parts([a], 0) + Padded(a) == Padded(a);
  }

  lemma SortPair(p: bool, a: Section, q: bool, b: Section)
    requires p && q ==> a.origin <= b.origin
    ensures var s := (if p then [a] else []) + (if q then [b] else []);
      s + [] == s && SortFrom(s, 0) == s
  {
    Sort2(a, b);
    Sort2(b, a);
    assert [a] + [b] == [a, b] && [] + [b] == [b] && [a] + [] == [a];
    assert SortFrom([], 0) == [];
  }

  lemma CollectedInFlash(flash: Region, ram: Region, t: Section, d: Section, b: Section)
    requires Placed(flash, ram, t, d, b)
    ensures Collected(flash, [t, d, b]) ==
      (if Counts(flash, t) then [t] else []) + (if Stray(ram, flash, d) then [d] else [])
  {
    assert t == [t, d, b][0] && d == [t, d, b][1];
    Select3(flash, t, d, b);
    assert !Counts(flash, b) && (Counts(flash, d) <==> Stray(ram, flash, d));
    SortPair(Counts(flash, t), t, Counts(flash, d), d);
  }

  /** The image of flash is the text, unless an empty data section of an empty RAM got in. */
  lemma FlashImage(flash: Region, ram: Region, t: Section, d: Section, b: Section)
    requires Placed(flash, ram, t, d, b)
    ensures ListImage(flash, Collected(flash, [t, d, b])) == Ok(Padded(t)) <==>
            !(Stray(ram, flash, d) && ram.origin != t.origin + t.length)
  {
    assert t == [t, d, b][0] && d == [t, d, b][1];
    var own := if Counts(flash, t) then [t] else [];
    CollectedInFlash(flash, ram, t, d, b);
    OwnText(flash, t);
    FitsMore(d, own);
    if Stray(ram, flash, d) {
      StrayBehind(flash, own, d);
    } else {
      assert own + [] == own;
      ContiguousImage(flash, own, |own|);
    }
  }

  lemma OwnText(flash: Region, t: Section)
    requires Fits([t]) && t.origin == flash.origin && (t.length > 0 ==> Inside(t, flash))
    ensures var own := if Counts(flash, t) then [t] else [];
      && SortFrom(own, 0) == own && Fits(own) && Contiguous(flash, own, |own|)
      && Total(own, |own|) <= flash.length && Parts(own, |own|) == Padded(t) && (|own| == 0 ==> t.length == 0)
      && Total(own, |own|) == t.length
  {
    PartsOne(t);
    Sort2(t, t);
    assert t == [t][0];
    assert Contiguous(flash, [t], 0) && Total([t], 0) == 0;
  }

  /** An empty section at the start of the region changes nothing. */
  lemma {:induction false} StrayFirst(region: Region, a: Section, s: seq<Section>, n: nat)
    requires n <= |s| && Padded(a) == [] && a.length == 0 && a.origin == region.origin
    requires Contiguous(region, s, n)
    ensures Total([a] + s, n + 1) == Total(s, n) && Parts([a] + s, n + 1) == Parts(s, n)
    ensures Contiguous(region, [a] + s, n + 1)
  {
    var both := [a] + s;
    if n == 0 {
      assert both[0] == a;
      StartsWithNothing(region, both);
    } else {
      StrayFirst(region, a, s, n - 1);
      assert both[n] == s[n - 1];
    }
  }

  lemma StartsWithNothing(region: Region, s: seq<Section>)
    requires s != [] && Padded(s[0]) == [] && s[0].length == 0 && s[0].origin == region.origin
    ensures Total(s, 1) == 0 && Parts(s, 1) == [] && Contiguous(region, s, 1)
  {
    assert Total(s, 0) == 0 && Parts(s, 0) == [] && Contiguous(region, s, 0);
  }

  lemma FitsMore(a: Section, s: seq<Section>)
    requires |Content(a.data)| <= a.length && Fits(s)
    ensures Fits([a] + s) && Fits(s + [a])
  {
  }

  lemma OwnData(ram: Region, d: Section, b: Section)
    requires Fits([d, b]) && d.origin == ram.origin && b.origin == d.origin + d.length && b.data == Nil
    requires (d.length > 0 ==> Inside(d, ram)) && (b.length > 0 ==> Inside(b, ram))
    ensures var own := (if Counts(ram, d) then [d] else []) + (if Counts(ram, b) then [b] else []);
      && SortFrom(own, 0) == own && Fits(own) && Contiguous(ram, own, |own|)
      && Total(own, |own|) == d.length + b.length <= ram.length && Parts(own, |own|) == Padded(d) + Padded(b)
  {
    assert d == [d, b][0] && b == [d, b][1];
    var own := (if Counts(ram, d) then [d] else []) + (if Counts(ram, b) then [b] else []);
    if Counts(ram, d) && Counts(ram, b) {
      assert own == [d, b];
      TwoStand(ram, d, b);
    } else if Counts(ram, d) {
      assert own == [d] && Padded(b) == [] && Padded(d) + [] == Padded(d);
      OneStands(ram, d);
    } else if Counts(ram, b) {
      assert own == [b] && Padded(d) == [] && [] + Padded(b) == Padded(b);
      OneStands(ram, b);
    } else {
      assert own == [] && Padded(d) + Padded(b) == [];
    }
  }

  lemma OneStands(region: Region, a: Section)
    requires Fits([a]) && a.origin == region.origin
    ensures SortFrom([a], 0) == [a] && Contiguous(region, [a], 1) && Total([a], 1) == a.length
    ensures Parts([a], 1) == Padded(a)
  {
    Sort2(a, a);
    PartsOne(a);
    assert Contiguous(region, [a], 0) && Total([a], 0) == 0;
  }

  lemma TwoStand(region: Region, a: Section, b: Section)
    requires Fits([a, b]) && a.origin == region.origin && b.origin == a.origin + a.length
    ensures SortFrom([a, b], 0) == [a, b] && Contiguous(region, [a, b], 2) && Total([a, b], 2) == a.length + b.length
    ensures Parts([a, b], 2) == Padded(a) + Padded(b)
  {
    Sort2(a, b);
    PartsTwo(a, b);
    assert Contiguous(region, [a, b], 1);
  }

  lemma PartsTwo(a: Section, b: Section)
    ensures Total([a, b], 1) == a.length && Total([a, b], 2) == a.length + b.length
    ensures Parts([a, b], 2) == Padded(a) + Padded(b)
  {
    assert Total([a, b], 0) == 0 && Parts([a, b], 0) == [] && [] + Padded(a) == Padded(a);
    assert Parts([a, b], 1) == Padded(a);
  }

  /** The stray section between data and bss. */
  lemma StrayBetween(ram: Region, t: Section, d: Section, b: Section)
    requires Fits([d, t, b]) && t.data == Bytes([]) && t.length == 0 && d.origin == ram.origin
    requires b.origin == d.origin + d.length && b.length > 0 && Inside(b, ram) && ram.origin < t.origin <= b.origin
    ensures ListImage(ram, [d, t, b]) == Ok(Padded(d) + Padded(b)) <==> t.origin == b.origin
  {
    var s := [d, t, b];
    assert d == s[0] && t == s[1] && b == s[2];
    assert Total(s, 0) == 0 && Total(s, 1) == d.length && Total(s, 2) == d.length && Total(s, 3) == d.length + b.length;
    assert Contiguous(ram, s, 0) && Contiguous(ram, s, 1);
    ContiguousImage(ram, s, 1);
    if t.origin == b.origin {
      assert Contiguous(ram, s, 2) && Contiguous(ram, s, 3);
      ContiguousImage(ram, s, 3);
      PartsTwo(d, b);
      assert Padded(t) == [] && Parts(s, 1) == [] + Padded(d) == Padded(d);
      assert Parts(s, 2) == Padded(d) + [] == Padded(d);
    } else {
      SizeFails(ram, s, 2, 3);
    }
  }

  lemma StrayAtStart(ram: Region, t: Section, own: seq<Section>)
    requires Fits([t] + own) && t.data == Bytes([]) && t.length == 0 && t.origin == ram.origin
    requires Contiguous(ram, own, |own|) && Total(own, |own|) <= ram.length
    ensures ListImage(ram, [t] + own) == Ok(Parts(own, |own|))
  {
    var s, n := [t] + own, |own| + 1;
    assert Padded(t) == [];
    StrayFirst(ram, t, own, |own|);
    ContiguousImage(ram, s, n);
    ImageOfAll(ram, s, n, Parts(own, |own|));
  }

  lemma ImageOfAll(region: Region, s: seq<Section>, n: nat, image: seq<byte>)
    requires n == |s| && SizeOf(region, s, n).Ok? && RegionImage(region, s, n) == image
    ensures ListImage(region, s) == Ok(image)
  {
  }

  lemma StrayInRam(ram: Region, t: Section, d: Section, b: Section)
    requires Fits([t, d, b]) && d.origin == ram.origin && b.origin == d.origin + d.length && b.data == Nil
    requires (d.length > 0 ==> Inside(d, ram)) && (b.length > 0 ==> Inside(b, ram))
    requires t.data == Bytes([]) && t.length == 0 && Holds(ram, t.origin)
    ensures var own := (if Counts(ram, d) then [d] else []) + (if Counts(ram, b) then [b] else []);
      ListImage(ram, SortFrom([t] + own, 0)) == Ok(Padded(d) + Padded(b)) <==>
      t.origin == ram.origin || t.origin == b.origin || t.origin == b.origin + b.length
  {
    assert t == [t, d, b][0] && d == [t, d, b][1] && b == [t, d, b][2];
    var own := (if Counts(ram, d) then [d] else []) + (if Counts(ram, b) then [b] else []);
    OwnData(ram, d, b);
    FitsMore(t, own);
    SortWithStray(ram, t, d, b);
    if t.origin == ram.origin {
      StrayAtStart(ram, t, own);
    } else if Counts(ram, d) && Counts(ram, b) && t.origin <= b.origin {
      StrayBetween(ram, t, d, b);
    } else {
      StrayBehind(ram, own, t);
    }
  }

  lemma SortWithStray(ram: Region, t: Section, d: Section, b: Section)
    requires d.origin == ram.origin <= t.origin && b.origin == d.origin + d.length
    requires (d.length > 0 ==> Counts(ram, d)) && (b.length > 0 ==> Counts(ram, b))
    ensures var own := (if Counts(ram, d) then [d] else []) + (if Counts(ram, b) then [b] else []);
      SortFrom([t] + own, 0) ==
      if t.origin == ram.origin then [t] + own
      else if Counts(ram, d) && Counts(ram, b) && t.origin <= b.origin then [d, t, b]
      else if Counts(ram, d) || t.origin > b.origin then own + [t]
      else [t] + own
  {
    Sort3(t, d, b);
    Sort2(t, d);
    Sort2(t, b);
    assert [t] + ([d] + [b]) == [t, d, b] && [d] + [b] + [t] == [d, b, t];
    assert [t] + ([d] + []) == [t, d] && [d] + [] + [t] == [d, t];
    assert [t] + ([] + [b]) == [t, b] && [] + [b] + [t] == [b, t];
  }

  lemma CollectedInRam(flash: Region, ram: Region, t: Section, d: Section, b: Section)
    requires Placed(flash, ram, t, d, b)
    ensures var own := (if Counts(ram, d) then [d] else []) + (if Counts(ram, b) then [b] else []);
      Collected(ram, [t, d, b]) == SortFrom(if Stray(flash, ram, t) then [t] + own else own, 0)
  {
    assert t == [t, d, b][0];
    Select3(ram, t, d, b);
    var x, y := if Counts(ram, d) then [d] else [], if Counts(ram, b) then [b] else [];
    assert Counts(ram, t) <==> Stray(flash, ram, t);
    assert [] + x + y == x + y && [t] + x + y == [t] + (x + y);
  }

  /** The image of RAM is data and bss, unless an empty text section of an empty flash got in. */
  lemma RamImage(flash: Region, ram: Region, t: Section, d: Section, b: Section)
    requires Placed(flash, ram, t, d, b)
    ensures ListImage(ram, Collected(ram, [t, d, b])) == Ok(Padded(d) + Padded(b)) <==>
            !(Stray(flash, ram, t) && t.origin != ram.origin && t.origin != b.origin && t.origin != b.origin + b.length)
  {
    assert t == [t, d, b][0] && d == [t, d, b][1] && b == [t, d, b][2];
    CollectedInRam(flash, ram, t, d, b);
    if Stray(flash, ram, t) {
      StrayInRam(ram, t, d, b);
    } else {
      var own := (if Counts(ram, d) then [d] else []) + (if Counts(ram, b) then [b] else []);
      OwnData(ram, d, b);
      ContiguousImage(ram, own, |own|);
    }
  }

  lemma Cancel(a: seq<byte>, b: seq<byte>, c: seq<byte>)
    ensures a + b == c + b <==> a == c
    ensures b + a == b + c <==> a == c
  {
    if a + b == c + b {
      assert (a + b)[..|a|] == a && (c + b)[..|c|] == c;
    }
    if b + a == b + c {
      assert (b + a)[|b|..] == a && (b + c)[|b|..] == c;
    }
  }

  /** The image the layout asks for: the lower region's sections, then the higher's, each padded to its length. */
  function Wanted(flash: Region, ram: Region, l: Layout): seq<byte>
    requires |l.sections| == 3
  {
    var low, high := Padded(l.sections[0]), Padded(l.sections[1]) + Padded(l.sections[2]);
    if ram.origin < flash.origin then high + low else low + high
  }

  /** For regions without a common address, a layout that was made is emitted as wanted exactly when no empty section
      of an empty region lands in the other region. */
  lemma EmitsWanted(flash: Region, ram: Region, text: Slice, data: Slice, bssSize: Address)
    requires Apart(flash, ram) && NewLayout(flash, ram, text, data, bssSize).Ok?
    ensures var l := NewLayout(flash, ram, text, data, bssSize).value;
      && |l.regions| == 2 && |l.sections| == 3 && Fits(l.sections)
      && (Image(l) == Ok(Wanted(flash, ram, l)) <==>
          !Misplaced(flash, ram, l.sections[0], l.sections[1], l.sections[2]))
  {
    LayoutPlaces(flash, ram, text, data, bssSize);
    var l := NewLayout(flash, ram, text, data, bssSize).value;
    var t, d, b := l.sections[0], l.sections[1], l.sections[2];
    assert l.sections == [t, d, b];
    assert Placed(flash, ram, t, d, b);
    FlashImage(flash, ram, t, d, b);
    RamImage(flash, ram, t, d, b);
    Combine(flash, ram, l, Padded(t), Padded(d) + Padded(b));
  }

  lemma Combine(flash: Region, ram: Region, l: Layout, low: seq<byte>, high: seq<byte>)
    requires l.regions == [flash, ram]
    requires ImageOfRegion(l, flash) == Ok(low) || ImageOfRegion(l, ram) == Ok(high)
    ensures Image(l) == Ok(if ram.origin < flash.origin then high + low else low + high) <==>
            ImageOfRegion(l, flash) == Ok(low) && ImageOfRegion(l, ram) == Ok(high)
  {
    match (ImageOfRegion(l, flash), ImageOfRegion(l, ram))
    case (Ok(x), Ok(y)) =>
      Cancel(x, y, low);
      Cancel(y, x, high);
    case _ =>
  }

  /** With two regions that are not empty, emitting a layout never fails. */
  lemma EmittingNeverFails(flash: Region, ram: Region, text: Slice, data: Slice, bssSize: Address)
    requires Apart(flash, ram) && flash.length > 0 && ram.length > 0 && NewLayout(flash, ram, text, data, bssSize).Ok?
    ensures var l := NewLayout(flash, ram, text, data, bssSize).value; Image(l) == Ok(Wanted(flash, ram, l))
  {
    EmitsWanted(flash, ram, text, data, bssSize);
  }

  /** An empty text for a flash of length 0 that lies four bytes into RAM: the layout is made, emitting it fails. */
  lemma EmptyTextFails()
    ensures var flash, ram := Region("flash", 4, 0, 5), Region("ram", 0, 16, 3);
      && Apart(flash, ram) && NewLayout(flash, ram, Bytes([]), Bytes([1, 2, 3, 4, 5]), 0).Ok?
      && var l := NewLayout(flash, ram, Bytes([]), Bytes([1, 2, 3, 4, 5]), 0).value;
         Image(l) != Ok(Wanted(flash, ram, l))
  {
    EmitsWanted(Region("flash", 4, 0, 5), Region("ram", 0, 16, 3), Bytes([]), Bytes([1, 2, 3, 4, 5]), 0);
  }

  /** Sixty-four bytes of text in a flash that reaches beyond 2^32: the layout is made and emitted as wanted, and the
      text ends above the last address. */
  lemma TextEndsBeyondAddresses(text: Slice)
    requires |Content(text)| == 64
    ensures var flash, ram := Region("flash", 0xffff_fff0, 0x100, 5), Region("ram", 0, 16, 3);
      && NewLayout(flash, ram, text, Nil, 0).Ok?
      && var l := NewLayout(flash, ram, text, Nil, 0).value;
         && Image(l) == Ok(Wanted(flash, ram, l))
         && l.sections[0].origin + l.sections[0].length > LIMIT && !EndsFit(l)
  {
    var flash, ram := Region("flash", 0xffff_fff0, 0x100, 5), Region("ram", 0, 16, 3);
    EmittingNeverFails(flash, ram, text, Nil, 0);
    EndsFitIff(flash, ram, text, Nil, 0);
  }
}
