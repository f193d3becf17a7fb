/** The configuration string of the deprecated openCache cache configuration:
    printing it, scanning it back, and when the two are inverse. */
module ConfigString {
  import opened Options
  import opened Words

  // ---- formatted text ----

  // the conversions and literal characters of a printf or scanf format
  datatype Directive = Chr | Num | Lit(c: char)

  // a literal character, or what a conversion prints or assigns
  datatype Item = Literal(c: char) | Character(c: char) | Number(n: nat)

  function Kind(x: Item): Directive {
    match x case Literal(c) => Lit(c) case Character(_) => Chr case Number(_) => Num
  }

  function Kinds(items: seq<Item>): seq<Directive> { seq(|items|, i requires 0 <= i < |items| => Kind(items[i])) }

  predicate IsDigit(c: char) { '0' <= c <= '9' }

  function Digit(d: nat): (c: char)
    requires d < 10
    ensures IsDigit(c)
  {
    '0' + (d as char)
  }

  // %u when printing
  function Decimal(n: nat): (s: string)
    ensures s != "" && forall i :: 0 <= i < |s| ==> IsDigit(s[i])
  {
    if n < 10 then [Digit(n)] else Decimal(n / 10) + [Digit(n % 10)]
  }

  function DigitsAhead(s: string): (n: nat)
    ensures n <= |s|
  {
    if s == "" || !IsDigit(s[0]) then 0 else 1 + DigitsAhead(s[1..])
  }

  function DigitValue(c: char): nat
    requires IsDigit(c)
  {
    (c - '0') as nat
  }

  function NumberOf(s: string): nat
    requires forall i :: 0 <= i < |s| ==> IsDigit(s[i])
  {
    if s == "" then 0 else 10 * NumberOf(s[..|s| - 1]) + DigitValue(s[|s| - 1])
  }

  lemma {:induction false} AheadAreDigits(s: string)
    ensures forall i :: 0 <= i < DigitsAhead(s) ==> IsDigit(s[i])
  {
    if s != "" && IsDigit(s[0]) {
      AheadAreDigits(s[1..]);
      forall i | 0 <= i < DigitsAhead(s)
        ensures IsDigit(s[i])
      {
        assert i > 0 ==> s[i] == s[1..][i - 1];
      }
    }
  }

  // sscanf: what is matched and converted up to the first mismatch
  function Scan(ds: seq<Directive>, text: string): (items: seq<Item>)
    ensures |items| <= |ds|
  {
    if ds == [] || text == "" then []
    else
      match ds[0]
      case Chr => [Character(text[0])] + Scan(ds[1..], text[1..])
      case Lit(c) => if text[0] == c then [Literal(c)] + Scan(ds[1..], text[1..]) else []
      case Num =>
        var k := DigitsAhead(text);
        AheadAreDigits(text);
        if k == 0 then [] else [Number(NumberOf(text[..k]))] + Scan(ds[1..], text[k..])
  }

  function Text(x: Item): string {
    match x case Literal(c) => [c] case Character(c) => [c] case Number(n) => Decimal(n)
  }

  // snprintf
  function Render(items: seq<Item>): string {
    if items == [] then "" else Text(items[0]) + Render(items[1..])
  }

  lemma {:induction false} AheadOfDecimal(s: string, rest: string)
    requires forall i :: 0 <= i < |s| ==> IsDigit(s[i])
    requires rest == "" || !IsDigit(rest[0])
    ensures DigitsAhead(s + rest) == |s|
  {
    if s == "" {
      assert s + rest == rest;
    } else {
      assert (s + rest)[1..] == s[1..] + rest;
      AheadOfDecimal(s[1..], rest);
    }
  }

  lemma {:induction false} NumberOfDecimal(n: nat)
    ensures NumberOf(Decimal(n)) == n
  {
    if n >= 10 {
      NumberOfDecimal(n / 10);
      assert Decimal(n)[..|Decimal(n)| - 1] == Decimal(n / 10);
    } else {
      assert [Digit(n)][..0] == "";
    }
  }

  // every number is followed by a literal that is no digit, or by nothing
  predicate Separated(items: seq<Item>) {
    forall i :: 0 <= i < |items| - 1 && items[i].Number? ==> items[i + 1].Literal? && !IsDigit(items[i + 1].c)
  }

  lemma ScanNumber(ds: seq<Directive>, n: nat, rest: string)
    requires ds != [] && ds[0] == Num && (rest == "" || !IsDigit(rest[0]))
    ensures Scan(ds, Decimal(n) + rest) == [Number(n)] + Scan(ds[1..], rest)
  {
    var s := Decimal(n);
    AheadOfDecimal(s, rest);
    NumberOfDecimal(n);
    assert (s + rest)[..|s|] == s && (s + rest)[|s|..] == rest;
  }

  /** Scanning a rendered text with its own format gives the items back. */
  lemma {:induction false} ScanOfRender(items: seq<Item>)
    requires Separated(items)
    ensures Scan(Kinds(items), Render(items)) == items
  {
    if items != [] {
      var (text, rest) := (Render(items), Render(items[1..]));
      assert Kinds(items)[1..] == Kinds(items[1..]);
      assert Separated(items[1..]) by {
        assert forall i :: 0 <= i < |items| - 1 ==> items[1..][i] == items[i + 1];
      }
      ScanOfRender(items[1..]);
      if items[0].Number? {
        if |items| > 1 {
          assert items[1].Literal? && items[1..][0] == items[1] && rest[0] == items[1].c;
        }
        ScanNumber(Kinds(items), items[0].n, rest);
      } else {
        assert text[1..] == rest;
      }
    }
  }

  predicate Small(x: Item) { x.Number? ==> x.n < 0x1_0000_0000 }

  lemma {:induction false} DecimalLength(n: nat, digits: nat, bound: nat)
    requires digits > 0 && n < bound && bound == Pow10(digits)
    ensures |Decimal(n)| <= digits
    decreases digits
  {
    if n >= 10 {
      DecimalLength(n / 10, digits - 1, bound / 10);
    }
  }

  function Pow10(n: nat): nat { if n == 0 then 1 else 10 * Pow10(n - 1) }

  lemma {:induction false} RenderLength(items: seq<Item>)
    requires forall i :: 0 <= i < |items| ==> Small(items[i])
    ensures |Render(items)| <= 10 * |items|
  {
    if items != [] {
      RenderLength(items[1..]);
      if items[0].Number? {
        assert Small(items[0]);
        assert Pow10(5) == 100_000 && Pow10(10) == 10_000_000_000;
        DecimalLength(items[0].n, 10, 10_000_000_000);
      }
    }
  }

  // ---- the configuration ----

  datatype CacheType = NORMAL | SECTOR
  datatype Replacement = LRU | FIFO | RANDOM | PLRU
  datatype Writing = READ_ONLY | WRITE_BACK | WRITE_THROUGH | WRITE_EVICT | LOCAL_WB_GLOBAL_WT
  datatype Allocation = ON_MISS | ON_FILL
  datatype WriteAllocation = NO_WRITE_ALLOCATE | WRITE_ALLOCATE | FETCH_ON_WRITE | LAZY_FETCH_ON_READ
  datatype SetIndexing = LINEAR | BITWISE_XOR | HASH_IPOLY | CUSTOM
  datatype MshrType = TEX_FIFO | ASSOC | SECTOR_TEX_FIFO | SECTOR_ASSOC

  const WORD := 0x1_0000_0000

  // the printed fields
  datatype Config = Config(cacheType: CacheType, sets: nat, line: nat, ways: nat,
      replacement: Replacement, writing: Writing, allocation: Allocation, writeAllocation: WriteAllocation,
      indexing: SetIndexing, mshr: MshrType, entries: nat, merge: nat, missQueue: nat) {
    predicate InRange() {
      sets < WORD && line < WORD && ways < WORD && entries < WORD && merge < WORD && missQueue < WORD
    }

    // the assertions of compute_derived, for an object with this sector size
    predicate Derivable(sectorSize: nat) {
      && IsPowerOfTwo(line) && IsPowerOfTwo(sets)
      && (cacheType == SECTOR ==> sectorSize > 0 && line % sectorSize == 0)
    }
  }

  predicate IsPowerOfTwo(n: nat) { n > 0 && And(n, n - 1) == 0 }

  // %c:%u:%u:%u,%c:%c:%c:%c:%c,%c:%u:%u,%u
  const FORMAT: seq<Directive> := [
    Chr, Lit(':'), Num, Lit(':'), Num, Lit(':'), Num, Lit(','),
    Chr, Lit(':'), Chr, Lit(':'), Chr, Lit(':'), Chr, Lit(':'), Chr, Lit(','),
    Chr, Lit(':'), Num, Lit(':'), Num, Lit(','), Num]

  // %u:%u:%u
  const SHORT: seq<Directive> := [Num, Lit(':'), Num, Lit(':'), Num]

  datatype Letters = Letters(kind: char, replacement: char, writing: char, allocation: char,
                             writeAllocation: char, indexing: char, mshr: char)
  datatype Numbers = Numbers(sets: nat, line: nat, ways: nat, entries: nat, merge: nat, missQueue: nat)

  // kind:sets:line:ways,replacement:writing:allocation:writeAllocation:indexing,mshr:entries:merge,missQueue
  function LongItems(l: Letters, n: Numbers): (items: seq<Item>)
    ensures |items| == 25
  {
    var (colon, comma) := (Literal(':'), Literal(','));
    [Character(l.kind), colon, Number(n.sets), colon, Number(n.line), colon, Number(n.ways), comma,
     Character(l.replacement), colon, Character(l.writing), colon, Character(l.allocation), colon,
     Character(l.writeAllocation), colon, Character(l.indexing), comma,
     Character(l.mshr), colon, Number(n.entries), colon, Number(n.merge), comma, Number(n.missQueue)]
  }

  // the characters of a configuration
  function LettersOf(c: Config): Letters {
    Letters(if c.cacheType == SECTOR then 'S' else 'N',
            if c.replacement == LRU then 'L' else 'F',
            match c.writing {
              case READ_ONLY => 'R' case WRITE_BACK => 'B' case WRITE_THROUGH => 'T'
              case WRITE_EVICT => 'E' case LOCAL_WB_GLOBAL_WT => 'L' },
            if c.allocation == ON_MISS then 'm' else 'f',
            match c.writeAllocation {
              case NO_WRITE_ALLOCATE => 'N' case WRITE_ALLOCATE => 'W'
              case FETCH_ON_WRITE => 'F' case LAZY_FETCH_ON_READ => 'L' },
            match c.indexing {
              case LINEAR => 'L' case BITWISE_XOR => 'X' case HASH_IPOLY => 'P' case CUSTOM => 'C' },
            if c.mshr == ASSOC then 'A' else 'S')
  }

  function ItemsOf(c: Config): (items: seq<Item>)
    ensures |items| == 25
  {
    LongItems(LettersOf(c), Numbers(c.sets, c.line, c.ways, c.entries, c.merge, c.missQueue))
  }

  // to_config_string, into a buffer of 256 characters
  function Print(c: Config): string {
    var text := Render(ItemsOf(c));
    if |text| < 256 then text else text[..255]
  }

  // an unsigned field, assigned if its conversion was reached
  function NumberAt(items: seq<Item>, i: nat, before: nat): nat {
    if i < |items| && items[i].Number? then items[i].n % WORD else before
  }

  function CharAt(items: seq<Item>, i: nat): char {
    if i < |items| && items[i].Character? then items[i].c else '?'
  }

  // what sscanf with the long format stores in the object itself
  function Stored(c: Config, items: seq<Item>): Config {
    c.(sets := NumberAt(items, 2, c.sets), line := NumberAt(items, 4, c.line), ways := NumberAt(items, 6, c.ways),
       entries := NumberAt(items, 20, c.entries), merge := NumberAt(items, 22, c.merge),
       missQueue := NumberAt(items, 24, c.missQueue))
  }

  function StoredShort(c: Config, items: seq<Item>): Config {
    c.(sets := NumberAt(items, 0, c.sets), line := NumberAt(items, 2, c.line), ways := NumberAt(items, 4, c.ways))
  }

  function TypeOf(ch: char): Option<CacheType> {
    if ch == 'N' then Some(NORMAL) else if ch == 'S' then Some(SECTOR) else None
  }

  function ReplacementOf(ch: char): Option<Replacement> {
    if ch == 'L' then Some(LRU) else if ch == 'F' then Some(FIFO) else None
  }

  function WritingOf(ch: char): Option<Writing> {
    match ch
    case 'R' => Some(READ_ONLY) case 'B' => Some(WRITE_BACK) case 'T' => Some(WRITE_THROUGH)
    case 'E' => Some(WRITE_EVICT) case 'L' => Some(LOCAL_WB_GLOBAL_WT) case _ => None
  }

  function AllocationOf(ch: char): Option<Allocation> {
    match ch case 'm' => Some(ON_MISS) case 'f' => Some(ON_FILL) case 's' => Some(ON_FILL) case _ => None
  }

  function WriteAllocationOf(ch: char): Option<WriteAllocation> {
    match ch
    case 'N' => Some(NO_WRITE_ALLOCATE) case 'W' => Some(WRITE_ALLOCATE)
    case 'F' => Some(FETCH_ON_WRITE) case 'L' => Some(LAZY_FETCH_ON_READ) case _ => None
  }

  function MshrOf(ch: char): Option<MshrType> {
    match ch
    case 'A' => Some(ASSOC) case 'S' => Some(SECTOR_ASSOC)
    case 'F' => Some(TEX_FIFO) case 'T' => Some(SECTOR_TEX_FIFO) case _ => None
  }

  function IndexingOf(ch: char): Option<SetIndexing> {
    match ch
    case 'L' => Some(LINEAR) case 'X' => Some(BITWISE_XOR)
    case 'H' => Some(HASH_IPOLY) case 'P' => Some(HASH_IPOLY) case 'C' => Some(CUSTOM) case _ => None
  }

  // the switches, in order: what they assign up to the first that fails, and whether all succeed
  function Decoded(c: Config, items: seq<Item>): (bool, Config) {
    var (ct, rp, wp, ap) := (TypeOf(CharAt(items, 0)), ReplacementOf(CharAt(items, 8)),
                             WritingOf(CharAt(items, 10)), AllocationOf(CharAt(items, 12)));
    var (wap, mt, sif) := (WriteAllocationOf(CharAt(items, 14)), MshrOf(CharAt(items, 18)),
                           IndexingOf(CharAt(items, 16)));
    if ct.None? then (false, c)
    else var c1 := c.(cacheType := ct.value);
      if rp.None? then (false, c1)
      else var c2 := c1.(replacement := rp.value);
        if wp.None? then (false, c2)
        else var c3 := c2.(writing := wp.value);
          if ap.None? then (false, c3)
          else var c4 := c3.(allocation := ap.value);
            if wap.None? then (false, c4)
            else var c5 := c4.(writeAllocation := wap.value);
              if mt.None? then (false, c5)
              else var c6 := c5.(mshr := mt.value);
                if sif.None? then (false, c6) else (true, c6.(indexing := sif.value))
  }

  // parse_config_string on an object; None where an assertion of compute_derived fails
  function Parse(c: Config, sectorSize: nat, text: string): Option<(bool, Config)> {
    if text == "" || text == "none" then Some((false, c))
    else
      var items := Scan(FORMAT, text);
      var c1 := Stored(c, items);
      if |items| < 23 then
        var short := Scan(SHORT, text);
        var c2 := StoredShort(c1, short);
        if |short| < 5 then Some((false, c2)) else if c2.Derivable(sectorSize) then Some((true, c2)) else None
      else
        var (ok, c2) := Decoded(c1, items);
        if !ok then Some((false, c2)) else if c2.Derivable(sectorSize) then Some((true, c2)) else None
  }

  lemma LongHasFormat(l: Letters, n: Numbers)
    ensures Kinds(LongItems(l, n)) == FORMAT && Separated(LongItems(l, n))
  {
  }

  lemma LongIsNoKeyword(l: Letters, n: Numbers)
    ensures Render(LongItems(l, n)) != "" && Render(LongItems(l, n)) != "none"
  {
    hide Render;
    var items := LongItems(l, n);
    RenderStep(items);
    RenderStep(items[1..]);
    assert items[1..][0] == Literal(':');
    assert Render(items)[1] == ':';
  }

  lemma RenderStep(items: seq<Item>)
    requires items != []
    ensures Render(items) == Text(items[0]) + Render(items[1..])
  {
  }

  lemma ItemsAreSmall(c: Config, i: nat)
    requires c.InRange() && i < 25
    ensures Small(ItemsOf(c)[i])
  {
  }

  /** The printed text always fits the buffer. */
  lemma PrintFits(c: Config)
    requires c.InRange()
    ensures |Print(c)| < 256 && Print(c) == Render(ItemsOf(c))
  {
    hide ItemsOf, Render, Small;
    var items := ItemsOf(c);
    forall i | 0 <= i < |items|
      ensures Small(items[i])
    {
      ItemsAreSmall(c, i);
    }
    RenderLength(items);
  }

  // the fields that the printed characters stand for
  function Printed(c: Config): Config {
    c.(replacement := if c.replacement == LRU then LRU else FIFO,
       mshr := if c.mshr == ASSOC then ASSOC else SECTOR_ASSOC)
  }

  /** Parsing a printed configuration succeeds, whatever the object held before, and
      restores all thirteen fields exactly for LRU or FIFO replacement and ASSOC or
      SECTOR_ASSOC MSHRs; any other value comes back as FIFO or SECTOR_ASSOC. */
  lemma ParseOfPrint(c: Config, c0: Config, sectorSize: nat)
    requires c.InRange() && c.Derivable(sectorSize)
    ensures Parse(c0, sectorSize, Print(c)) == Some((true, Printed(c)))
    ensures Printed(c) == c <==> c.replacement in {LRU, FIFO} && c.mshr in {ASSOC, SECTOR_ASSOC}
  {
    hide Render, Scan, LongItems, And;
    var n := Numbers(c.sets, c.line, c.ways, c.entries, c.merge, c.missQueue);
    PrintFits(c);
    LongHasFormat(LettersOf(c), n);
    ScanOfRender(ItemsOf(c));
    LongIsNoKeyword(LettersOf(c), n);
    DecodedItems(c, c0);
  }

  lemma DecodedItems(c: Config, c0: Config)
    requires c.InRange()
    ensures Decoded(Stored(c0, ItemsOf(c)), ItemsOf(c)) == (true, Printed(c))
  {
  }

  // ---- the format of three numbers ----

  function ShortItems(sets: nat, line: nat, ways: nat): (items: seq<Item>)
    ensures |items| == 5
  {
    [Number(sets), Literal(':'), Number(line), Literal(':'), Number(ways)]
  }

  // no item of the long format lies beyond its first comma in a text without commas
  lemma {:induction false} ScanStopsAtComma(ds: seq<Directive>, text: string, n: nat)
    requires n < |ds| && ds[n] == Lit(',') && ',' !in text
    ensures |Scan(ds, text)| <= n
  {
    if text != "" && n > 0 {
      AheadAreDigits(text);
      var k := if ds[0] == Num then DigitsAhead(text) else 1;
      assert ds[1..][n - 1] == Lit(',') && forall c :: c in text[k..] ==> c in text;
      ScanStopsAtComma(ds[1..], text[k..], n - 1);
    }
  }

  lemma {:induction false} NoCommas(items: seq<Item>)
    requires forall x :: x in items ==> x.Number? || (x.Literal? && x.c != ',')
    ensures ',' !in Render(items)
  {
    if items != [] {
      assert forall x :: x in items[1..] ==> x in items;
      NoCommas(items[1..]);
      assert items[0] in items;
      assert ',' !in Text(items[0]);
    }
  }

  lemma ShortIsNoKeyword(sets: nat, line: nat, ways: nat)
    ensures Render(ShortItems(sets, line, ways)) != "" && Render(ShortItems(sets, line, ways)) != "none"
  {
    var items := ShortItems(sets, line, ways);
    assert Render(items)[0] == Decimal(sets)[0];
    assert IsDigit(Decimal(sets)[0]);
  }

  /** A text of three numbers sets the number of sets, the line size and the associativity,
      in this order, and keeps every other field, whatever the first attempt with the long
      format stored. */
  lemma ParseOfShort(c0: Config, sectorSize: nat, sets: nat, line: nat, ways: nat)
    requires sets < WORD && line < WORD && ways < WORD
    ensures var c := Config(c0.cacheType, sets, line, ways, c0.replacement, c0.writing, c0.allocation,
                            c0.writeAllocation, c0.indexing, c0.mshr, c0.entries, c0.merge, c0.missQueue);
      Parse(c0, sectorSize, Render(ShortItems(sets, line, ways)))
      == if c.Derivable(sectorSize) then Some((true, c)) else None
  {
    hide Render, Scan, And;
    var items := ShortItems(sets, line, ways);
    assert Kinds(items) == SHORT;
    ScanOfRender(items);
    NoCommas(items);
    ScanStopsAtComma(FORMAT, Render(items), 7);
    ShortIsNoKeyword(sets, line, ways);
  }

  // ---- what each character stands for ----

  predicate AllKnown(l: Letters) {
    && l.kind in {'N', 'S'} && l.replacement in {'L', 'F'} && l.writing in {'R', 'B', 'T', 'E', 'L'}
    && l.allocation in {'m', 'f', 's'} && l.writeAllocation in {'N', 'W', 'F', 'L'}
    && l.indexing in {'L', 'X', 'H', 'P', 'C'} && l.mshr in {'A', 'S', 'F', 'T'}
  }

  predicate Means(l: Letters, c: Config) {
    && (c.cacheType == SECTOR <==> l.kind == 'S')
    && (c.replacement == LRU <==> l.replacement == 'L') && (c.replacement == FIFO <==> l.replacement == 'F')
    && (c.writing == READ_ONLY <==> l.writing == 'R') && (c.writing == WRITE_BACK <==> l.writing == 'B')
    && (c.writing == WRITE_THROUGH <==> l.writing == 'T') && (c.writing == WRITE_EVICT <==> l.writing == 'E')
    && (c.allocation == ON_MISS <==> l.allocation == 'm')
    && (c.writeAllocation == NO_WRITE_ALLOCATE <==> l.writeAllocation == 'N')
    && (c.writeAllocation == WRITE_ALLOCATE <==> l.writeAllocation == 'W')
    && (c.writeAllocation == FETCH_ON_WRITE <==> l.writeAllocation == 'F')
    && (c.indexing == LINEAR <==> l.indexing == 'L') && (c.indexing == BITWISE_XOR <==> l.indexing == 'X')
    && (c.indexing == HASH_IPOLY <==> l.indexing in {'H', 'P'})
    && (c.mshr == ASSOC <==> l.mshr == 'A') && (c.mshr == SECTOR_ASSOC <==> l.mshr == 'S')
    && (c.mshr == TEX_FIFO <==> l.mshr == 'F')
  }

  lemma StoredNumbers(l: Letters, n: Numbers, c0: Config)
    requires n.sets < WORD && n.line < WORD && n.ways < WORD && n.entries < WORD && n.merge < WORD && n.missQueue < WORD
    ensures Stored(c0, LongItems(l, n)) ==
      Config(c0.cacheType, n.sets, n.line, n.ways, c0.replacement, c0.writing, c0.allocation,
             c0.writeAllocation, c0.indexing, c0.mshr, n.entries, n.merge, n.missQueue)
  {
  }

  lemma LettersMean(l: Letters)
    ensures TypeOf(l.kind).Some? <==> l.kind in {'N', 'S'}
    ensures ReplacementOf(l.replacement).Some? <==> l.replacement in {'L', 'F'}
    ensures WritingOf(l.writing).Some? <==> l.writing in {'R', 'B', 'T', 'E', 'L'}
    ensures AllocationOf(l.allocation).Some? <==> l.allocation in {'m', 'f', 's'}
    ensures WriteAllocationOf(l.writeAllocation).Some? <==> l.writeAllocation in {'N', 'W', 'F', 'L'}
    ensures IndexingOf(l.indexing).Some? <==> l.indexing in {'L', 'X', 'H', 'P', 'C'}
    ensures MshrOf(l.mshr).Some? <==> l.mshr in {'A', 'S', 'F', 'T'}
  {
  }

  // the fields after all seven switches
  function Switched(c: Config, l: Letters): Config
    requires AllKnown(l)
  {
    LettersMean(l);
    c.(cacheType := TypeOf(l.kind).value, replacement := ReplacementOf(l.replacement).value,
       writing := WritingOf(l.writing).value, allocation := AllocationOf(l.allocation).value,
       writeAllocation := WriteAllocationOf(l.writeAllocation).value, indexing := IndexingOf(l.indexing).value,
       mshr := MshrOf(l.mshr).value)
  }

  lemma SwitchedMeans(c: Config, l: Letters)
    requires AllKnown(l)
    ensures Means(l, Switched(c, l))
  {
  }

  lemma DecodedLetters(l: Letters, n: Numbers, c: Config)
    ensures Decoded(c, LongItems(l, n)).0 <==> AllKnown(l)
    ensures AllKnown(l) ==> Decoded(c, LongItems(l, n)).1 == Switched(c, l)
    ensures var c' := Decoded(c, LongItems(l, n)).1;
      && c'.sets == c.sets && c'.line == c.line && c'.ways == c.ways && c'.entries == c.entries
      && c'.merge == c.merge && c'.missQueue == c.missQueue
  {
    hide TypeOf, ReplacementOf, WritingOf, AllocationOf, WriteAllocationOf, IndexingOf, MshrOf;
    LettersMean(l);
  }

  /** A text of the long format, whatever its characters, is accepted exactly if each of them
      is known; the numbers and what the characters stand for then are the configuration.
      A rejected text has stored its numbers all the same. */
  lemma ParseOfLong(l: Letters, n: Numbers, c0: Config, sectorSize: nat)
    requires n.sets < WORD && n.line < WORD && n.ways < WORD && n.entries < WORD && n.merge < WORD && n.missQueue < WORD
    ensures var r := Parse(c0, sectorSize, Render(LongItems(l, n)));
      && (r.None? <==> AllKnown(l) && !(IsPowerOfTwo(n.line) && IsPowerOfTwo(n.sets)
                                        && (l.kind == 'S' ==> sectorSize > 0 && n.line % sectorSize == 0)))
      && (r.Some? ==>
            && (r.value.0 <==> AllKnown(l)) && (AllKnown(l) ==> Means(l, r.value.1))
            && r.value.1.sets == n.sets && r.value.1.line == n.line && r.value.1.ways == n.ways
            && r.value.1.entries == n.entries && r.value.1.merge == n.merge && r.value.1.missQueue == n.missQueue)
  {
    hide Render, Scan, LongItems, IsPowerOfTwo, Decoded, Stored, AllKnown, Switched, Separated, Kinds;
    LongHasFormat(l, n);
    LongIsNoKeyword(l, n);
    ScanOfRender(LongItems(l, n));
    StoredNumbers(l, n, c0);
    DecodedLetters(l, n, Stored(c0, LongItems(l, n)));
    if AllKnown(l) {
      SwitchedMeans(Stored(c0, LongItems(l, n)), l);
    }
  }

  // ---- the object ----

  class CacheConfig {
    const sectorSize: nat
    var cacheType: CacheType
    var sets: nat
    var line: nat
    var ways: nat
    var replacement: Replacement
    var writing: Writing
    var allocation: Allocation
    var writeAllocation: WriteAllocation
    var indexing: SetIndexing
    var mshr: MshrType
    var entries: nat
    var merge: nat
    var missQueue: nat

    constructor (c: Config, sectorSize: nat)
      ensures State() == c && this.sectorSize == sectorSize
    {
      this.sectorSize := sectorSize;
      cacheType, sets, line, ways := c.cacheType, c.sets, c.line, c.ways;
      replacement, writing, allocation, writeAllocation := c.replacement, c.writing, c.allocation, c.writeAllocation;
      indexing, mshr, entries, merge, missQueue := c.indexing, c.mshr, c.entries, c.merge, c.missQueue;
    }

    function State(): Config
      reads this
    {
      Config(cacheType, sets, line, ways, replacement, writing, allocation, writeAllocation, indexing, mshr,
             entries, merge, missQueue)
    }

    method ToConfigString() returns (text: string)
      ensures text == Print(State())
    {
      text := Print(State());
    }

    // one switch of parse_config_string each: false for an unknown character
    method SetCacheType(ch: char) returns (ok: bool)
      modifies this`cacheType
      ensures ok == TypeOf(ch).Some? && cacheType == if ok then TypeOf(ch).value else old(cacheType)
    {
      match ch {
        case 'N' => cacheType := NORMAL;
        case 'S' => cacheType := SECTOR;
        case _ => return false;
      }
      return true;
    }

    method SetReplacement(ch: char) returns (ok: bool)
      modifies this`replacement
      ensures ok == ReplacementOf(ch).Some? && replacement == if ok then ReplacementOf(ch).value else old(replacement)
    {
      match ch {
        case 'L' => replacement := LRU;
        case 'F' => replacement := FIFO;
        case _ => return false;
      }
      return true;
    }

    method SetWriting(ch: char) returns (ok: bool)
      modifies this`writing
      ensures ok == WritingOf(ch).Some? && writing == if ok then WritingOf(ch).value else old(writing)
    {
      match ch {
        case 'R' => writing := READ_ONLY;
        case 'B' => writing := WRITE_BACK;
        case 'T' => writing := WRITE_THROUGH;
        case 'E' => writing := WRITE_EVICT;
        case 'L' => writing := LOCAL_WB_GLOBAL_WT;
        case _ => return false;
      }
      return true;
    }

    method SetAllocation(ch: char) returns (ok: bool)
      modifies this`allocation
      ensures ok == AllocationOf(ch).Some? && allocation == if ok then AllocationOf(ch).value else old(allocation)
    {
      match ch {
        case 'm' => allocation := ON_MISS;
        case 'f' => allocation := ON_FILL;
        case 's' => allocation := ON_FILL;
        case _ => return false;
      }
      return true;
    }

    method SetWriteAllocation(ch: char) returns (ok: bool)
      modifies this`writeAllocation
      ensures ok == WriteAllocationOf(ch).Some?
              && writeAllocation == if ok then WriteAllocationOf(ch).value else old(writeAllocation)
    {
      match ch {
        case 'N' => writeAllocation := NO_WRITE_ALLOCATE;
        case 'W' => writeAllocation := WRITE_ALLOCATE;
        case 'F' => writeAllocation := FETCH_ON_WRITE;
        case 'L' => writeAllocation := LAZY_FETCH_ON_READ;
        case _ => return false;
      }
      return true;
    }

    method SetMshr(ch: char) returns (ok: bool)
      modifies this`mshr
      ensures ok == MshrOf(ch).Some? && mshr == if ok then MshrOf(ch).value else old(mshr)
    {
      match ch {
        case 'A' => mshr := ASSOC;
        case 'S' => mshr := SECTOR_ASSOC;
        case 'F' => mshr := TEX_FIFO;
        case 'T' => mshr := SECTOR_TEX_FIFO;
        case _ => return false;
      }
      return true;
    }

    method SetIndexing(ch: char) returns (ok: bool)
      modifies this`indexing
      ensures ok == IndexingOf(ch).Some? && indexing == if ok then IndexingOf(ch).value else old(indexing)
    {
      match ch {
        case 'L' => indexing := LINEAR;
        case 'X' => indexing := BITWISE_XOR;
        case 'H' => indexing := HASH_IPOLY;
        case 'P' => indexing := HASH_IPOLY;
        case 'C' => indexing := CUSTOM;
        case _ => return false;
      }
      return true;
    }

    // the switches over the scanned characters, up to the first that fails
    method DecodeItems(items: seq<Item>) returns (ok: bool)
      modifies this
      ensures (ok, State()) == Decoded(old(State()), items)
    {
      hide CharAt, TypeOf, ReplacementOf, WritingOf, AllocationOf, WriteAllocationOf, MshrOf, IndexingOf;
      ok := SetCacheType(CharAt(items, 0));
      if !ok {
        return;
      }
      ok := SetReplacement(CharAt(items, 8));
      if !ok {
        return;
      }
      ok := SetWriting(CharAt(items, 10));
      if !ok {
        return;
      }
      ok := SetAllocation(CharAt(items, 12));
      if !ok {
        return;
      }
      ok := SetWriteAllocation(CharAt(items, 14));
      if !ok {
        return;
      }
      ok := SetMshr(CharAt(items, 18));
      if !ok {
        return;
      }
      ok := SetIndexing(CharAt(items, 16));
    }

    // parse_config_string: None where an assertion of compute_derived fails
    method ParseConfigString(text: string) returns (ok: Option<bool>)
      modifies this
      ensures var r := Parse(old(State()), sectorSize, text);
              if r.None? then ok.None? else ok == Some(r.value.0) && State() == r.value.1
    {
      hide Scan, Decoded, And;
      if text == "" || text == "none" {
        return Some(false);
      }
      var items := Scan(FORMAT, text);
      sets := NumberAt(items, 2, sets);
      line := NumberAt(items, 4, line);
      ways := NumberAt(items, 6, ways);
      entries := NumberAt(items, 20, entries);
      merge := NumberAt(items, 22, merge);
      missQueue := NumberAt(items, 24, missQueue);
      if |items| < 23 {
        var short := Scan(SHORT, text);
        sets := NumberAt(short, 0, sets);
        line := NumberAt(short, 2, line);
        ways := NumberAt(short, 4, ways);
        if |short| < 5 {
          return Some(false);
        }
      } else {
        var decoded := DecodeItems(items);
        if !decoded {
          return Some(false);
        }
      }
      ok := if State().Derivable(sectorSize) then Some(true) else None;
    }
  }
}
