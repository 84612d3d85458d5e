/**
 Directory names under a database: how IDs are spelled, how a directory set aside for deletion is
 named, and which names the sweep and the prune planner recognise.
 */
module Names {
  import opened Domain
  import opened Ordering
  import opened ArtifactProtocol

  const PART_SUFFIX := ".part"
  const DELETING_MARKER := ".deleting-"

  function HexDigit(n: nat): char
    requires n < 16
  {
    "0123456789abcdef"[n]
  }

  function HexValue(c: char): Option<nat> {
    if '0' <= c <= '9' then Some(c as nat - '0' as nat)
    else if 'a' <= c <= 'f' then Some(c as nat - 'a' as nat + 10)
    else if 'A' <= c <= 'F' then Some(c as nat - 'A' as nat + 10)
    else None
  }

  /** The last `width` hexadecimal digits of `n`, most significant first. */
  function Digits(n: nat, width: nat): (s: string)
    ensures |s| == width
  {
    if width == 0 then [] else Digits(n / 16, width - 1) + [HexDigit(n % 16)]
  }

  function Value(s: string): Option<nat> {
    if s == [] then Some(0)
    else
      match (Value(s[..|s| - 1]), HexValue(s[|s| - 1]))
      case (Some(high), Some(low)) => Some(16 * high + low)
      case _ => None
  }

  function Power16(width: nat): nat {
    if width == 0 then 1 else 16 * Power16(width - 1)
  }

  lemma Power16Of32()
    ensures Power16(32) == 0x1_0000_0000_0000_0000_0000_0000_0000_0000
  {
    assert Power16(4) == 0x1_0000;
    assert Power16(8) == 0x1_0000_0000;
    assert Power16(12) == 0x1_0000_0000_0000;
    assert Power16(16) == 0x1_0000_0000_0000_0000;
    assert Power16(20) == 0x1_0000_0000_0000_0000_0000;
    assert Power16(24) == 0x1_0000_0000_0000_0000_0000_0000;
    assert Power16(28) == 0x1_0000_0000_0000_0000_0000_0000_0000;
  }

  /** Reading digits back, one more digit at a time. */
  lemma ValueOfLast(high: string, value: nat, digit: nat)
    requires Value(high) == Some(value) && digit < 16
    ensures Value(high + [HexDigit(digit)]) == Some(16 * value + digit)
  {
    var s := high + [HexDigit(digit)];
    assert s[..|s| - 1] == high && s[|s| - 1] == HexDigit(digit);
    hide Value;
    assert HexValue(HexDigit(digit)) == Some(digit);
  }

  lemma {:induction false} ValueOfDigits(n: nat, width: nat)
    requires n < Power16(width)
    ensures Value(Digits(n, width)) == Some(n)
  {
    if width == 0 {
    } else {
      var high, low := n / 16, n % 16;
      assert 16 * high + low == n && Power16(width) == 16 * Power16(width - 1);
      assert high < Power16(width - 1);
      assert Digits(n, width) == Digits(high, width - 1) + [HexDigit(low)];
      ValueOfDigits(high, width - 1);
      hide Value, Digits, Power16;
      ValueOfLast(Digits(high, width - 1), high, low);
    }
  }

  lemma {:induction false} DigitsAreHex(n: nat, width: nat)
    ensures forall c | c in Digits(n, width) :: c != '.' && c != '-'
  {
    if width == 0 {
    } else {
      DigitsAreHex(n / 16, width - 1);
    }
  }

  function Hyphenate(d: string): string
    requires |d| == 32
  {
    d[..8] + "-" + d[8..12] + "-" + d[12..16] + "-" + d[16..20] + "-" + d[20..]
  }

  function Unhyphenate(s: string): string
    requires |s| == 36
  {
    s[..8] + s[9..13] + s[14..18] + s[19..23] + s[24..]
  }

  /** The spelling of a dump ID: 36 characters, lower case. */
  function Spell(id: DumpId): (s: string)
    ensures |s| == 36
  {
    Hyphenate(Digits(id, 32))
  }

  function ParseHyphenated(s: string): Option<nat> {
    if |s| == 36 && s[8] == '-' && s[13] == '-' && s[18] == '-' && s[23] == '-' then Value(Unhyphenate(s)) else None
  }

  /** The UUID parser accepts four layouts in either case. */
  function ParseUuid(s: string): Option<nat> {
    if |s| == 32 then Value(s)
    else if |s| == 36 then ParseHyphenated(s)
    else if |s| == 38 && s[0] == '{' && s[37] == '}' then ParseHyphenated(s[1..37])
    else if |s| == 45 && s[..9] == "urn:uuid:" then ParseHyphenated(s[9..])
    else None
  }

  /** A dump ID is a UUID spelled the canonical way. */
  function ParseDumpId(s: string): Option<DumpId> {
    match ParseUuid(s)
    case None => None
    case Some(n) => if n < 0x1_0000_0000_0000_0000_0000_0000_0000_0000 && Spell(n) == s then Some(n) else None
  }

  lemma HyphensComeOff(d: string)
    requires |d| == 32
    ensures Unhyphenate(Hyphenate(d)) == d
    ensures forall c | c in Hyphenate(d) :: c == '-' || c in d
  {
    var h := Hyphenate(d);
    assert h[..8] == d[..8] && h[9..13] == d[8..12] && h[14..18] == d[12..16] && h[19..23] == d[16..20]
           && h[24..] == d[20..];
    assert d == d[..8] + d[8..12] + d[12..16] + d[16..20] + d[20..];
    assert forall i | 0 <= i < 36 && i !in {8, 13, 18, 23} ::
        h[i] ==
          d[if i < 8 then i else if i < 13 then i - 1 else if i < 18 then i - 2 else if i < 23 then i - 3 else i - 4];
  }

  /** The spelling of an ID is the one string that parses to it. */
  lemma SpellingIsCanonical(id: DumpId, s: string)
    ensures ParseDumpId(s) == Some(id) <==> s == Spell(id)
    ensures ParseUuid(Spell(id)) == Some(id)
  {
    var d := Digits(id, 32);
    Power16Of32();
    ValueOfDigits(id, 32);
    hide Value, Power16, Digits;
    var h := Spell(id);
    assert h[8] == '-' && h[13] == '-' && h[18] == '-' && h[23] == '-';
    HyphensComeOff(d);
    assert ParseHyphenated(h) == Some(id);
  }

  lemma SpellingHasNoDot(id: DumpId)
    ensures '.' !in Spell(id)
  {
    DigitsAreHex(id, 32);
    HyphensComeOff(Digits(id, 32));
  }

  /** Splits at the first occurrence. */
  function SplitOnce(name: string, marker: string): Option<(string, string)> {
    if marker <= name then Some(("", name[|marker|..]))
    else if name == "" then None
    else
      match SplitOnce(name[1..], marker)
      case None => None
      case Some((before, after)) => Some(([name[0]] + before, after))
  }

  function StripSuffix(name: string, suffix: string): Option<string> {
    if |suffix| <= |name| && name[|name| - |suffix|..] == suffix then Some(name[..|name| - |suffix|]) else None
  }

  predicate IsInterruptedDeletion(name: string) {
    match SplitOnce(name, DELETING_MARKER)
    case None => false
    case Some((original, suffix)) =>
      && suffix != ""
      && ParseUuid(suffix).Some?
      && (ParseDumpId(original).Some?
          || (StripSuffix(original, PART_SUFFIX).Some? && ParseDumpId(StripSuffix(original, PART_SUFFIX).value).Some?))
  }

  /** Where a directory goes before it is deleted. */
  function DeletionName(name: string, tag: DumpId): string {
    name + DELETING_MARKER + Spell(tag)
  }

  /** The file name of a protocol entry; tags are UUIDs. */
  function Render(entry: Entry): string
    requires Tagged(entry)
  {
    match entry
    case Staged(id) => Spell(id) + PART_SUFFIX
    case Complete(id) => Spell(id)
    case Isolated(original, tag) => DeletionName(Render(original), tag)
  }

  predicate Tagged(entry: Entry) {
    entry.Isolated? ==> entry.tag < 0x1_0000_0000_0000_0000_0000_0000_0000_0000 && Tagged(entry.original)
  }

  lemma {:induction false} SplitSkips(plain: string, rest: string, marker: string)
    requires '.' !in plain && marker != "" && marker[0] == '.'
    ensures SplitOnce(plain + rest, marker) ==
            match SplitOnce(rest, marker)
            case None => None
            case Some((before, after)) => Some((plain + before, after))
  {
    if plain == "" {
      assert plain + rest == rest;
      assert SplitOnce(rest, marker).Some? ==>
               plain + SplitOnce(rest, marker).value.0 == SplitOnce(rest, marker).value.0;
    } else {
      SplitSkips(plain[1..], rest, marker);
      assert (plain + rest)[1..] == plain[1..] + rest;
      assert (plain + rest)[0] == plain[0];
      match SplitOnce(rest, marker)
      case None =>
      case Some((before, after)) => assert [plain[0]] + (plain[1..] + before) == plain + before;
    }
  }

  /** A name that does not start with the marker splits where the rest of it does. */
  lemma SplitsLater(name: string, marker: string)
    requires name != "" && !(marker <= name) && SplitOnce(name[1..], marker).Some?
    ensures SplitOnce(name, marker) ==
            Some(([name[0]] + SplitOnce(name[1..], marker).value.0, SplitOnce(name[1..], marker).value.1))
  {
  }

  /** The marker cannot straddle the end of a name: its only dot is its first character. */
  lemma {:induction false} SplitAtMarker(name: string, tail: string)
    requires SplitOnce(name, DELETING_MARKER).None?
    ensures SplitOnce(name + (DELETING_MARKER + tail), DELETING_MARKER) == Some((name, tail))
  {
    var whole := name + (DELETING_MARKER + tail);
    if name == "" {
      assert whole == DELETING_MARKER + tail;
    } else {
      hide ParseDumpId;
      assert whole[1..] == name[1..] + (DELETING_MARKER + tail);
      assert whole[0] == name[0] && [name[0]] + name[1..] == name;
      NotInFront(name, tail);
      SplitAtMarker(name[1..], tail);
      SplitsLater(whole, DELETING_MARKER);
    }
  }

  lemma NotInFront(name: string, tail: string)
    requires name != "" && !(DELETING_MARKER <= name)
    ensures !(DELETING_MARKER <= name + (DELETING_MARKER + tail))
  {
    var whole := name + (DELETING_MARKER + tail);
    assert whole[|name|] == '.';
    assert |name| < 10 ==> whole[|name|] != DELETING_MARKER[|name|];
    assert |name| >= 10 ==> whole[..10] == name[..10];
  }

  lemma StripsPart(s: string)
    ensures StripSuffix(s + PART_SUFFIX, PART_SUFFIX) == Some(s)
  {
  }

  lemma ParsedHasNoDot(s: string)
    requires ParseDumpId(s).Some?
    ensures '.' !in s
  {
    SpellingHasNoDot(ParseDumpId(s).value);
  }

  /** A name with the marker in it splits at that marker for ever, and what follows it grows too long for a UUID. */
  lemma MarkedIsNoDeletion(name: string, tag: DumpId)
    requires SplitOnce(name, DELETING_MARKER).Some?
    ensures !IsInterruptedDeletion(DeletionName(name, tag))
  {
    var more, rest := DELETING_MARKER + Spell(tag), SplitOnce(name, DELETING_MARKER).value.1;
    assert DeletionName(name, tag) == name + more;
    assert |more| == 46;
    SplitExtends(name, DELETING_MARKER, more);
    LongIsNoUuid(rest + more);
    hide Spell, ParseUuid, SplitOnce, ParseDumpId, StripSuffix, DeletionName;
  }

  /** Without a marker in the name, its deletion name splits into the name and the tag. */
  lemma UnmarkedIsDeletion(name: string, tag: DumpId)
    requires SplitOnce(name, DELETING_MARKER).None?
    ensures IsInterruptedDeletion(DeletionName(name, tag)) <==>
            ParseDumpId(name).Some?
            || (StripSuffix(name, PART_SUFFIX).Some? && ParseDumpId(StripSuffix(name, PART_SUFFIX).value).Some?)
  {
    assert DeletionName(name, tag) == name + (DELETING_MARKER + Spell(tag));
    assert Spell(tag) != "";
    SpellingIsCanonical(tag, Spell(tag));
    SplitAtMarker(name, Spell(tag));
    hide Spell, ParseUuid, SplitOnce, ParseDumpId, StripSuffix, DeletionName;
  }

  /**
   Which deletions a later sweep can finish, for every name there is: those set aside from a name
   the sweep reads as an artifact or a stage. A name already set aside is not among them.
   */
  lemma DeletionIsRecognisedOnce(name: string, tag: DumpId)
    ensures IsInterruptedDeletion(DeletionName(name, tag)) <==> SweepClassOf(name).Kept? || SweepClassOf(name).Partial?
    ensures IsInterruptedDeletion(name) ==> !IsInterruptedDeletion(DeletionName(name, tag))
  {
    if SplitOnce(name, DELETING_MARKER).Some? {
      MarkedIsNoDeletion(name, tag);
      MarkedIsNeither(name);
    } else {
      UnmarkedIsDeletion(name, tag);
      if ParseDumpId(name).Some? {
        ParsedIsNoStage(name);
      }
    }
    hide SplitOnce, ParseUuid, ParseDumpId, StripSuffix, DeletionName;
  }

  lemma ParsedIsNoStage(name: string)
    requires ParseDumpId(name).Some?
    ensures StripSuffix(name, PART_SUFFIX).None?
  {
    ParsedHasNoDot(name);
    assert |name| >= 5 ==> name[|name| - 5..][0] == name[|name| - 5] != '.';
  }

  /** The deletion names the prune and the sweep make are recognised by the next sweep. */
  lemma DeletionNameIsRecognised(id: DumpId, tag: DumpId)
    ensures IsInterruptedDeletion(DeletionName(Spell(id), tag))
    ensures IsInterruptedDeletion(DeletionName(Spell(id) + PART_SUFFIX, tag))
  {
    DeletionIsRecognisedOnce(Spell(id), tag);
    DeletionIsRecognisedOnce(Spell(id) + PART_SUFFIX, tag);
    RenderedNamesAreRecognised(Complete(id));
    RenderedNamesAreRecognised(Staged(id));
  }

  lemma DeletionNameIsNoStage(name: string, tag: DumpId)
    ensures StripSuffix(DeletionName(name, tag), PART_SUFFIX).None?
  {
    SpellingHasNoDot(tag);
    var whole := DeletionName(name, tag);
    assert whole[|whole| - 5] == Spell(tag)[31];
  }

  lemma LongIsNoUuid(s: string)
    requires |s| >= 46
    ensures ParseUuid(s).None?
  {
  }

  /** A name with the marker in it is no ID and no stage. */
  lemma MarkedIsNeither(name: string)
    requires SplitOnce(name, DELETING_MARKER).Some?
    ensures ParseDumpId(name).None?
    ensures StripSuffix(name, PART_SUFFIX).Some? ==> ParseDumpId(StripSuffix(name, PART_SUFFIX).value).None?
  {
    if ParseDumpId(name).Some? {
      ParsedHasNoDot(name);
      assert name + "" == name;
      NoMarker(name, "");
      assert false;
    }
    if StripSuffix(name, PART_SUFFIX).Some? && ParseDumpId(StripSuffix(name, PART_SUFFIX).value).Some? {
      var id := StripSuffix(name, PART_SUFFIX).value;
      ParsedHasNoDot(id);
      assert name == id + PART_SUFFIX;
      NoMarker(id, PART_SUFFIX);
      assert false;
    }
  }

  lemma {:induction false} SplitExtends(name: string, marker: string, more: string)
    requires SplitOnce(name, marker).Some? && marker != ""
    ensures SplitOnce(name + more, marker) ==
              Some((SplitOnce(name, marker).value.0, SplitOnce(name, marker).value.1 + more))
  {
    if marker <= name {
      assert marker <= name + more;
      assert (name + more)[|marker|..] == name[|marker|..] + more;
    } else {
      SplitExtends(name[1..], marker, more);
      assert (name + more)[1..] == name[1..] + more;
      SplitFits(name[1..], marker);
      assert |name| >= |marker|;
      assert (name + more)[..|marker|] == name[..|marker|];
    }
  }

  lemma {:induction false} SplitFits(name: string, marker: string)
    ensures SplitOnce(name, marker).Some? ==> |name| >= |marker|
  {
    if marker <= name || name == "" {
    } else {
      SplitFits(name[1..], marker);
    }
  }

  /** How the sweep reads a name. */
  datatype SweepClass = Deletion | Partial(id: DumpId) | Kept(id: DumpId) | Foreign

  function SweepClassOf(name: string): SweepClass {
    if IsInterruptedDeletion(name) then Deletion
    else if StripSuffix(name, PART_SUFFIX).Some? then
      match ParseDumpId(StripSuffix(name, PART_SUFFIX).value)
      case Some(id) => Partial(id)
      case None => Foreign
    else
      match ParseDumpId(name)
      case Some(id) => Kept(id)
      case None => Foreign
  }

  /** How the prune planner reads a name. */
  datatype PruneClass = BelongsToSweep | Candidate(id: DumpId) | Invalid

  function PruneClassOf(name: string): PruneClass {
    if StripSuffix(name, PART_SUFFIX).Some? || IsInterruptedDeletion(name) then BelongsToSweep
    else
      match ParseDumpId(name)
      case Some(id) => Candidate(id)
      case None => Invalid
  }

  /** On every name at all, what the sweep may remove is not a prune candidate, and every candidate the sweep keeps. */
  lemma SweepAndPruneAreDisjoint(name: string, id: DumpId)
    ensures PruneClassOf(name) == Candidate(id) <==> SweepClassOf(name) == Kept(id)
    ensures SweepClassOf(name).Deletion? || SweepClassOf(name).Partial? ==> PruneClassOf(name).BelongsToSweep?
  {
  }

  /** Both planners read an entry's file name as the entry it is; a twice-isolated one is foreign to both. */
  lemma {:induction false} RenderedNamesAreRecognised(entry: Entry)
    requires Tagged(entry)
    ensures SweepClassOf(Render(entry)) ==
            match entry
            case Complete(id) => Kept(id)
            case Staged(id) => Partial(id)
            case Isolated(original, _) => if original.Isolated? then Foreign else Deletion
    ensures Removable(entry) <==> SweepClassOf(Render(entry)) != Foreign
  {
    match entry
    case Complete(id) =>
      SpellingIsCanonical(id, Spell(id));
      SpellingHasNoDot(id);
      NoMarker(Spell(id), "");
      assert Spell(id) + "" == Spell(id);
      assert Spell(id)[31..][0] == Spell(id)[31] != '.';
    case Staged(id) =>
      SpellingIsCanonical(id, Spell(id));
      StripsPart(Spell(id));
      SpellingHasNoDot(id);
      NoMarker(Spell(id), PART_SUFFIX);
    case Isolated(original, tag) =>
      RenderedNamesAreRecognised(original);
      DeletionIsRecognisedOnce(Render(original), tag);
      IsolatedIsNeither(entry);
  }

  lemma NoMarker(plain: string, tail: string)
    requires '.' !in plain && tail in {"", PART_SUFFIX}
    ensures SplitOnce(plain + tail, DELETING_MARKER).None?
  {
    SplitSkips(plain, tail, DELETING_MARKER);
    if tail == PART_SUFFIX {
      assert PART_SUFFIX[1..] == "part" + "";
      SplitSkips("part", "", DELETING_MARKER);
    }
  }

  /** An isolated name is no stage and no ID. */
  lemma IsolatedIsNeither(entry: Entry)
    requires entry.Isolated? && Tagged(entry)
    ensures StripSuffix(Render(entry), PART_SUFFIX).None?
    ensures ParseDumpId(Render(entry)).None?
  {
    var name := Render(entry);
    SpellingHasNoDot(entry.tag);
    assert name[|name| - 36..] == Spell(entry.tag);
    assert name[|name| - 5] == Spell(entry.tag)[31];
    RenderedLength(entry);
  }

  function Depth(entry: Entry): nat {
    if entry.Isolated? then 1 + Depth(entry.original) else 0
  }

  function Base(entry: Entry): Entry {
    if entry.Isolated? then Base(entry.original) else entry
  }

  lemma {:induction false} RenderedLength(entry: Entry)
    requires Tagged(entry)
    ensures |Render(entry)| == 46 * Depth(entry) + if Base(entry).Staged? then 41 else 36
  {
    if !entry.Isolated? {
    } else {
      RenderedLength(entry.original);
    }
  }

  /** Different entries have different file names, so the protocol's paths stand for names one to one. */
  lemma {:induction false} RenderIsInjective(a: Entry, b: Entry)
    requires Tagged(a) && Tagged(b) && Render(a) == Render(b)
    ensures a == b
  {
    RenderedLength(a);
    RenderedLength(b);
    assert Depth(a) == Depth(b) && Base(a).Staged? == Base(b).Staged?;
    if a.Isolated? {
      var ra, rb := Render(a.original), Render(b.original);
      assert |ra| == |rb|;
      assert Render(a)[..|ra|] == ra && Render(b)[..|rb|] == rb;
      assert Render(a)[|ra| + 10..] == Spell(a.tag) && Render(b)[|rb| + 10..] == Spell(b.tag);
      SpellingIsCanonical(a.tag, Spell(b.tag));
      SpellingIsCanonical(b.tag, Spell(b.tag));
      RenderIsInjective(a.original, b.original);
    } else {
      assert Render(a)[..36] == Spell(a.id) && Render(b)[..36] == Spell(b.id);
      SpellingIsCanonical(a.id, Spell(b.id));
      SpellingIsCanonical(b.id, Spell(b.id));
    }
  }

  /** Among strings of equal length a common front decides first. */
  lemma {:induction false} OrderOfConcat(x: string, y: string, x': string, y': string)
    requires |x| == |x'|
    ensures StringLe(x + y, x' + y') <==> if x == x' then StringLe(y, y') else StringLe(x, x')
  {
    if x == "" {
      assert x + y == y && x' + y' == y';
    } else {
      assert (x + y)[1..] == x[1..] + y && (x' + y')[1..] == x'[1..] + y';
      OrderOfConcat(x[1..], y, x'[1..], y');
      assert x == [x[0]] + x[1..] && x' == [x'[0]] + x'[1..];
    }
  }

  lemma {:induction false} OrderOfDigits(a: nat, b: nat, width: nat)
    requires a < Power16(width) && b < Power16(width)
    ensures StringLe(Digits(a, width), Digits(b, width)) <==> a <= b
  {
    if width == 0 {
    } else {
      var x, y := Digits(a / 16, width - 1), Digits(b / 16, width - 1);
      var c, d := HexDigit(a % 16), HexDigit(b % 16);
      assert Digits(a, width) == x + [c] && Digits(b, width) == y + [d];
      DropDigit(a, width);
      DropDigit(b, width);
      OrderOfDigits(a / 16, b / 16, width - 1);
      EqualDigits(a / 16, b / 16, width - 1);
      hide Digits, Value, Power16, StringLe;
      OrderOfConcat(x, [c], y, [d]);
      OrderOfLastDigit(a % 16, b % 16);
      OrderOfQuotients(a, b);
    }
  }

  lemma DropDigit(n: nat, width: nat)
    requires width > 0 && n < Power16(width)
    ensures n / 16 < Power16(width - 1)
  {
    assert Power16(width) == 16 * Power16(width - 1);
  }

  lemma OrderOfQuotients(a: nat, b: nat)
    ensures a <= b <==> a / 16 < b / 16 || (a / 16 == b / 16 && a % 16 <= b % 16)
  {
    assert a == 16 * (a / 16) + a % 16 && b == 16 * (b / 16) + b % 16;
  }

  lemma EqualDigits(a: nat, b: nat, width: nat)
    requires a < Power16(width) && b < Power16(width)
    ensures Digits(a, width) == Digits(b, width) <==> a == b
  {
    ValueOfDigits(a, width);
    ValueOfDigits(b, width);
  }

  lemma OrderOfLastDigit(m: nat, n: nat)
    requires m < 16 && n < 16
    ensures StringLe([HexDigit(m)], [HexDigit(n)]) <==> m <= n
  {
    assert [HexDigit(m)][1..] == "" && [HexDigit(n)][1..] == "";
  }

  /** Sorting by spelling, as the listings do, is sorting by ID. */
  lemma SpellingKeepsOrder(a: DumpId, b: DumpId)
    ensures StringLe(Spell(a), Spell(b)) <==> a <= b
  {
    Power16Of32();
    OrderOfDigits(a, b, 32);
    HyphensKeepOrder(Digits(a, 32), Digits(b, 32));
  }

  /** Inserting the same separator after equally long pieces does not change the order. */
  lemma InsertKeepsOrder(x: string, y: string, x': string, y': string)
    requires |x| == |x'|
    ensures StringLe(x + "-" + y, x' + "-" + y') <==> StringLe(x + y, x' + y')
  {
    OrderOfConcat(x, y, x', y');
    OrderOfConcat(x, "-" + y, x', "-" + y');
    OrderOfConcat("-", y, "-", y');
    assert x + "-" + y == x + ("-" + y) && x' + "-" + y' == x' + ("-" + y');
  }

  lemma HyphensKeepOrder(d: string, e: string)
    requires |d| == 32 && |e| == 32
    ensures StringLe(Hyphenate(d), Hyphenate(e)) <==> StringLe(d, e)
  {
    hide StringLe;
    var d1, e1 := d[..20] + "-" + d[20..], e[..20] + "-" + e[20..];
    var d2, e2 := d1[..16] + "-" + d1[16..], e1[..16] + "-" + e1[16..];
    var d3, e3 := d2[..12] + "-" + d2[12..], e2[..12] + "-" + e2[12..];
    var d4, e4 := d3[..8] + "-" + d3[8..], e3[..8] + "-" + e3[8..];
    Split(d, e, 20);
    Split(d1, e1, 16);
    Split(d2, e2, 12);
    Split(d3, e3, 8);
    Hyphenated(d);
    Hyphenated(e);
  }

  lemma Hyphenated(d: string)
    requires |d| == 32
    ensures var d1 := d[..20] + "-" + d[20..];
            var d2 := d1[..16] + "-" + d1[16..];
            var d3 := d2[..12] + "-" + d2[12..];
            d3[..8] + "-" + d3[8..] == Hyphenate(d)
  {
    var d1 := d[..20] + "-" + d[20..];
    var d2 := d1[..16] + "-" + d1[16..];
    var d3 := d2[..12] + "-" + d2[12..];
    assert d1[..16] == d[..16] && d2[..12] == d[..12] && d3[..8] == d[..8];
    assert d1[16..] == d[16..20] + "-" + d[20..];
    assert d2[12..] == d[12..16] + "-" + d1[16..];
    assert d3[8..] == d[8..12] + "-" + d2[12..];
  }

  lemma Split(d: string, e: string, i: nat)
    requires i <= |d| == |e|
    ensures StringLe(d[..i] + "-" + d[i..], e[..i] + "-" + e[i..]) <==> StringLe(d, e)
  {
    InsertKeepsOrder(d[..i], d[i..], e[..i], e[i..]);
    assert d[..i] + d[i..] == d && e[..i] + e[i..] == e;
  }
}
