/**
 Classification of a raw kernel zone or device type into a logical domain, by
 the first matching entry of an ordered prefix table.
 */
module Classification {

  datatype Prefix = Prefix(text: string, index: nat)

  const TEMP_DOMAIN_COUNT: nat := 16
  const COOL_DOMAIN_COUNT: nat := 12

  const SDRAM := Prefix("sdram", 3)
  const SDR := Prefix("sdr", 10)

  const TEMP_PREFIXES: seq<Prefix> := [
    Prefix("cpu", 0), Prefix("gpu", 1), Prefix("nsp", 2), Prefix("ddr", 3),
    SDRAM,
    Prefix("mdmss", 4), Prefix("qmx", 5), Prefix("video", 6), Prefix("camera", 7),
    Prefix("wireless", 8), Prefix("usb", 9), SDR, Prefix("mmw", 11),
    Prefix("pm", 12), Prefix("sys", 13), Prefix("battery", 14), Prefix("socd", 15)
  ]

  const COOL_PREFIXES: seq<Prefix> := [
    Prefix("cpu", 0), Prefix("pause-cpu", 0), Prefix("idle-cpu", 0), Prefix("ddr", 1), Prefix("gpu", 2), Prefix("kgsl", 2),
    Prefix("cdsp", 3), Prefix("display", 4), Prefix("panel", 4), Prefix("ufs", 5), Prefix("battery", 6),
    Prefix("modem", 7), Prefix("pa_", 8), Prefix("mmw", 9), Prefix("dsds", 10), Prefix("thermal-pause", 11)
  ]

  predicate StartsWith(s: string, prefix: string) {
    prefix <= s
  }

  predicate Contains(s: string, part: string) {
    exists i | 0 <= i <= |s| :: part <= s[i..]
  }

  /** PMIC current-limit and current nodes, and battery-voltage zones. */
  predicate Excluded(s: string) {
    Contains(s, "-bcl-") || Contains(s, "-ibat-") || StartsWith(s, "vbat")
  }

  /** The index of the first entry that is a prefix of s, or -1. */
  function FirstMatch(s: string, table: seq<Prefix>): (r: int)
    ensures r == -1 <==> forall p :: p in table ==> !StartsWith(s, p.text)
    ensures r != -1 ==> exists p :: p in table && StartsWith(s, p.text) && p.index == r
  {
    if table == [] then -1
    else if StartsWith(s, table[0].text) then table[0].index
    else FirstMatch(s, table[1..])
  }

  function Domain(s: string, table: seq<Prefix>): int {
    if Excluded(s) then -1 else FirstMatch(s, table)
  }

  /** linux_thermal_classify. */
  method Classify(s: string, table: seq<Prefix>) returns (index: int)
    ensures index == Domain(s, table)
  {
    index := -1;
    if Excluded(s) {
      return -1;
    }
    for i := 0 to |table|
      invariant index == -1
      invariant FirstMatch(s, table) == FirstMatch(s, table[i..])
    {
      if StartsWith(s, table[i].text) {
        index := table[i].index;
        break;
      }
    }
  }

  // ----- Which types are left out, and what the others get

  lemma PartIsContained(a: string, part: string, b: string)
    ensures Contains(a + part + b, part)
  {
    var s := a + part + b;
    assert s[|a|..] == part + b;
  }

  lemma ContainedIsPart(s: string, part: string) returns (a: string, b: string)
    requires Contains(s, part)
    ensures s == a + part + b
  {
    var i :| 0 <= i <= |s| && part <= s[i..];
    a, b := s[..i], s[i + |part|..];
  }

  lemma StartIsPart(s: string, prefix: string) returns (b: string)
    requires StartsWith(s, prefix)
    ensures s == prefix + b
  {
    b := s[|prefix|..];
  }

  /** Current-limit, current and battery-voltage nodes belong to no domain, whatever stands around the mark. */
  lemma CurrentsAndVoltagesAreLeftOut(a: string, b: string, table: seq<Prefix>)
    ensures Domain(a + "-bcl-" + b, table) == -1
    ensures Domain(a + "-ibat-" + b, table) == -1
    ensures Domain("vbat" + b, table) == -1
  {
    PartIsContained(a, "-bcl-", b);
    PartIsContained(a, "-ibat-", b);
  }

  /** Any other type gets the index of the first entry it begins with, and belongs to no domain only if there is none. */
  lemma OtherTypesGetTheirFirstMatch(s: string, table: seq<Prefix>, k: nat)
    requires forall a, b :: s != a + "-bcl-" + b && s != a + "-ibat-" + b
    requires forall b :: s != "vbat" + b
    requires k <= |table| && forall j :: 0 <= j < k ==> !(table[j].text <= s)
    ensures k < |table| && table[k].text <= s ==> Domain(s, table) == table[k].index
    ensures k == |table| ==> Domain(s, table) == -1
  {
    if Contains(s, "-bcl-") {
      var a, b := ContainedIsPart(s, "-bcl-");
      assert false;
    }
    if Contains(s, "-ibat-") {
      var a, b := ContainedIsPart(s, "-ibat-");
      assert false;
    }
    if StartsWith(s, "vbat") {
      var b := StartIsPart(s, "vbat");
      assert false;
    }
    FirstMatchIsFirst(s, table, k);
  }

  lemma {:induction false} FirstMatchIsFirst(s: string, table: seq<Prefix>, k: nat)
    requires k <= |table| && forall j :: 0 <= j < k ==> !StartsWith(s, table[j].text)
    ensures k < |table| && StartsWith(s, table[k].text) ==> FirstMatch(s, table) == table[k].index
    ensures k == |table| ==> FirstMatch(s, table) == -1
  {
    if k > 0 {
      FirstMatchIsFirst(s, table[1..], k - 1);
    }
  }

  /** index is what the longest entry matching s says, or -1 if none matches. */
  ghost predicate IsLongestMatch(s: string, table: seq<Prefix>, index: int) {
    if forall p :: p in table ==> !StartsWith(s, p.text) then index == -1
    else exists p :: p in table && StartsWith(s, p.text) && p.index == index
                     && forall q :: q in table && StartsWith(s, q.text) ==> |q.text| <= |p.text|
  }

  /** The first match, by position. */
  lemma {:induction false} FirstMatchAt(s: string, table: seq<Prefix>) returns (k: nat)
    requires FirstMatch(s, table) != -1
    ensures k < |table| && StartsWith(s, table[k].text) && table[k].index == FirstMatch(s, table)
    ensures forall j :: 0 <= j < k ==> !StartsWith(s, table[j].text)
  {
    if StartsWith(s, table[0].text) {
      k := 0;
    } else {
      k := FirstMatchAt(s, table[1..]);
      k := k + 1;
    }
  }

  // ----- Which entries can match one and the same string

  /** Where the one temperature prefix, "sdr" aside, stands that can open with these characters. */
  function TempSlot(a: char, b: char): nat {
    match a
    case 's' => if b == 'd' then 4 else if b == 'y' then 14 else 16
    case 'm' => if b == 'd' then 5 else 12
    case 'c' => if b == 'p' then 0 else 8
    case 'g' => 1
    case 'n' => 2
    case 'd' => 3
    case 'q' => 6
    case 'v' => 7
    case 'w' => 9
    case 'u' => 10
    case 'p' => 13
    case _ => 15
  }

  /** Where the one cooling prefix stands that can open with these characters. */
  function CoolSlot(a: char, b: char, c: char): nat {
    match a
    case 'c' => if b == 'p' then 0 else 6
    case 'p' => if c == 'u' then 1 else if c == 'n' then 8 else 12
    case 'd' => if b == 'd' then 3 else if b == 'i' then 7 else 14
    case 'm' => if b == 'o' then 11 else 13
    case 'i' => 2
    case 'g' => 4
    case 'k' => 5
    case 'u' => 9
    case 'b' => 10
    case _ => 15
  }

  lemma TempEntryAt(k: nat)
    requires k < |TEMP_PREFIXES|
    ensures var p := TEMP_PREFIXES[k];
            2 <= |p.text| && p.index < TEMP_DOMAIN_COUNT && (k == 11 || k == TempSlot(p.text[0], p.text[1]))
  {
  }

  lemma CoolEntryAt(k: nat)
    requires k < |COOL_PREFIXES|
    ensures var p := COOL_PREFIXES[k];
            3 <= |p.text| && p.index < COOL_DOMAIN_COUNT && k == CoolSlot(p.text[0], p.text[1], p.text[2])
  {
  }

  lemma TempEntries(p: Prefix)
    requires p in TEMP_PREFIXES
    ensures 2 <= |p.text| && p.index < TEMP_DOMAIN_COUNT
    ensures p == SDR || (TempSlot(p.text[0], p.text[1]) < |TEMP_PREFIXES| && p == TEMP_PREFIXES[TempSlot(p.text[0], p.text[1])])
  {
    var k :| 0 <= k < |TEMP_PREFIXES| && TEMP_PREFIXES[k] == p;
    TempEntryAt(k);
  }

  lemma CoolEntries(p: Prefix)
    requires p in COOL_PREFIXES
    ensures 3 <= |p.text| && p.index < COOL_DOMAIN_COUNT
    ensures CoolSlot(p.text[0], p.text[1], p.text[2]) < |COOL_PREFIXES|
         && p == COOL_PREFIXES[CoolSlot(p.text[0], p.text[1], p.text[2])]
  {
    var k :| 0 <= k < |COOL_PREFIXES| && COOL_PREFIXES[k] == p;
    CoolEntryAt(k);
  }

  // ----- First match is longest match, and how far the order matters

  ghost predicate SameEntries(a: seq<Prefix>, b: seq<Prefix>) {
    multiset(a) == multiset(b)
  }

  lemma SameMembers(a: seq<Prefix>, b: seq<Prefix>)
    requires SameEntries(a, b)
    ensures forall p :: p in a <==> p in b
  {
    forall p ensures p in a <==> p in b {
      assert p in multiset(a) <==> p in multiset(b);
    }
  }

  /** Two entries matching one string are the same, unless they are x and y. */
  ghost predicate OnlyCompetitors(table: seq<Prefix>, x: Prefix, y: Prefix) {
    forall s, p, q :: p in table && q in table && StartsWith(s, p.text) && StartsWith(s, q.text) ==>
      p == q || (p == x && q == y) || (p == y && q == x)
  }

  /** x stands before every y. */
  ghost predicate Precedes(table: seq<Prefix>, x: Prefix, y: Prefix) {
    exists k :: 0 <= k < |table| && table[k] == x && y !in table[..k]
  }

  /** With the longer competitor in front, the first match is the longest. */
  lemma {:induction false} FirstIsLongest(s: string, table: seq<Prefix>, x: Prefix, y: Prefix)
    requires OnlyCompetitors(table, x, y) && |y.text| <= |x.text|
    requires x == y || Precedes(table, x, y)
    requires forall p :: p in table ==> p.index != -1
    ensures IsLongestMatch(s, table, FirstMatch(s, table))
  {
    if exists p :: p in table && StartsWith(s, p.text) {
      var k := FirstMatchAt(s, table);
      forall q | q in table && StartsWith(s, q.text)
        ensures |q.text| <= |table[k].text|
      {
        if x != y {
          var j :| 0 <= j < |table| && table[j] == x && y !in table[..j];
          assert forall i :: 0 <= i < j ==> table[..j][i] != y;
        }
      }
    }
  }

  lemma LongestMatchIsUnique(s: string, table: seq<Prefix>, x: Prefix, y: Prefix, a: int, b: int)
    requires OnlyCompetitors(table, x, y) && (x == y || |y.text| != |x.text|)
    requires IsLongestMatch(s, table, a) && IsLongestMatch(s, table, b)
    ensures a == b
  {
  }

  lemma LongestMatchIgnoresOrder(s: string, a: seq<Prefix>, b: seq<Prefix>, index: int)
    requires SameEntries(a, b) && IsLongestMatch(s, a, index)
    ensures IsLongestMatch(s, b, index)
  {
    SameMembers(a, b);
  }

  lemma CoolingHasNoCompetitors()
    ensures OnlyCompetitors(COOL_PREFIXES, SDRAM, SDRAM)
  {
    forall s, p, q | p in COOL_PREFIXES && q in COOL_PREFIXES && StartsWith(s, p.text) && StartsWith(s, q.text)
      ensures p == q
    {
      CoolEntries(p);
      CoolEntries(q);
      assert forall i :: 0 <= i < 3 ==> p.text[i] == s[i] == q.text[i];
    }
  }

  lemma TemperatureCompetitors()
    ensures OnlyCompetitors(TEMP_PREFIXES, SDRAM, SDR)
  {
    forall s, p, q | p in TEMP_PREFIXES && q in TEMP_PREFIXES && StartsWith(s, p.text) && StartsWith(s, q.text)
      ensures p == q || (p == SDRAM && q == SDR) || (p == SDR && q == SDRAM)
    {
      TempEntries(p);
      TempEntries(q);
      assert forall i :: 0 <= i < 2 ==> p.text[i] == s[i] == q.text[i];
    }
  }

  lemma CompetitorsIgnoreOrder(a: seq<Prefix>, b: seq<Prefix>, x: Prefix, y: Prefix)
    requires SameEntries(a, b) && OnlyCompetitors(b, x, y)
    ensures OnlyCompetitors(a, x, y)
  {
    SameMembers(a, b);
  }

  lemma IndicesIgnoreOrder(table: seq<Prefix>)
    requires SameEntries(table, TEMP_PREFIXES) || SameEntries(table, COOL_PREFIXES)
    ensures forall p :: p in table ==> p.index != -1
  {
  }

  /** In any order, the cooling table gives the same answer: the longest match. */
  lemma {:induction false} CoolingOrderIsIrrelevant(s: string, table: seq<Prefix>)
    requires SameEntries(table, COOL_PREFIXES)
    ensures FirstMatch(s, table) == FirstMatch(s, COOL_PREFIXES)
    ensures IsLongestMatch(s, COOL_PREFIXES, FirstMatch(s, table))
  {
    CoolingHasNoCompetitors();
    var t := COOL_PREFIXES;
    CompetitorsIgnoreOrder(table, t, SDRAM, SDRAM);
    FirstIsLongest(s, table, SDRAM, SDRAM);
    FirstIsLongest(s, t, SDRAM, SDRAM);
    LongestMatchIgnoresOrder(s, table, t, FirstMatch(s, table));
    LongestMatchIsUnique(s, t, SDRAM, SDRAM, FirstMatch(s, table), FirstMatch(s, t));
  }

  /** With "sdram" before "sdr", the temperature table answers with the longest match. */
  lemma {:induction false} SdramFirstIsLongestMatch(s: string, table: seq<Prefix>)
    requires SameEntries(table, TEMP_PREFIXES) && Precedes(table, SDRAM, SDR)
    ensures IsLongestMatch(s, TEMP_PREFIXES, FirstMatch(s, table))
  {
    TemperatureCompetitors();
    CompetitorsIgnoreOrder(table, TEMP_PREFIXES, SDRAM, SDR);
    FirstIsLongest(s, table, SDRAM, SDR);
    LongestMatchIgnoresOrder(s, table, TEMP_PREFIXES, FirstMatch(s, table));
  }

  lemma TheTableIsSdramFirst()
    ensures Precedes(TEMP_PREFIXES, SDRAM, SDR)
  {
    var t := TEMP_PREFIXES[..4];
    assert TEMP_PREFIXES[4] == SDRAM && |t| == 4;
    assert SDR !in t;
  }

  /** The table as shipped: the first match is the longest. */
  lemma {:induction false} TemperatureMatchIsLongest(s: string)
    ensures IsLongestMatch(s, TEMP_PREFIXES, FirstMatch(s, TEMP_PREFIXES))
  {
    TheTableIsSdramFirst();
    SdramFirstIsLongestMatch(s, TEMP_PREFIXES);
  }

  /** If some "sdr" stands before "sdram", the type "sdram" reads as RF, not as DDR. */
  lemma {:induction false} SdramBehindSdrIsMisread(table: seq<Prefix>)
    requires forall p :: p in table ==> p.index != -1
    requires SDRAM in table && OnlyCompetitors(table, SDRAM, SDR) && !Precedes(table, SDRAM, SDR)
    ensures FirstMatch("sdram", table) == SDR.index
  {
    var s := "sdram";
    assert s[..3] == SDR.text;
    assert StartsWith(s, SDRAM.text) && StartsWith(s, SDR.text);
    var k := FirstMatchAt(s, table);
    assert SDR !in table[..k];
  }

  /**
   The one constraint on the order of the temperature table, both ways: a
   reordering classifies every string as the table does exactly when it keeps
   "sdram" before "sdr".
   */
  lemma {:induction false} OnlySdramMustComeFirst(table: seq<Prefix>)
    requires SameEntries(table, TEMP_PREFIXES)
    ensures (forall s :: FirstMatch(s, table) == FirstMatch(s, TEMP_PREFIXES)) <==> Precedes(table, SDRAM, SDR)
  {
    TemperatureCompetitors();
    TheTableIsSdramFirst();
    IndicesIgnoreOrder(table);
    IndicesIgnoreOrder(TEMP_PREFIXES);
    OnlyTheLongerMustComeFirst(table, TEMP_PREFIXES);
  }

  lemma {:induction false} OnlyTheLongerMustComeFirst(table: seq<Prefix>, t: seq<Prefix>)
    requires SameEntries(table, t) && OnlyCompetitors(t, SDRAM, SDR) && Precedes(t, SDRAM, SDR)
    requires (forall p :: p in table ==> p.index != -1) && forall p :: p in t ==> p.index != -1
    ensures (forall s :: FirstMatch(s, table) == FirstMatch(s, t)) <==> Precedes(table, SDRAM, SDR)
  {
    SameMembers(table, t);
    CompetitorsIgnoreOrder(table, t, SDRAM, SDR);
    if Precedes(table, SDRAM, SDR) {
      forall s ensures FirstMatch(s, table) == FirstMatch(s, t) {
        FirstIsLongest(s, table, SDRAM, SDR);
        FirstIsLongest(s, t, SDRAM, SDR);
        LongestMatchIgnoresOrder(s, table, t, FirstMatch(s, table));
        LongestMatchIsUnique(s, t, SDRAM, SDR, FirstMatch(s, table), FirstMatch(s, t));
      }
    } else {
      SdramBehindSdrIsMisread(table);
      SdramIsMemory(t);
    }
  }

  lemma {:induction false} SdramIsMemory(t: seq<Prefix>)
    requires SDRAM in t && OnlyCompetitors(t, SDRAM, SDR) && Precedes(t, SDRAM, SDR)
    requires forall p :: p in t ==> p.index != -1
    ensures FirstMatch("sdram", t) == SDRAM.index
  {
    FirstIsLongest("sdram", t, SDRAM, SDR);
    assert StartsWith("sdram", SDRAM.text);
  }

  /** A classified string indexes the per-domain arrays; excluded types are never classified. */
  lemma DomainInRange(s: string)
    ensures -1 <= Domain(s, TEMP_PREFIXES) < TEMP_DOMAIN_COUNT
    ensures -1 <= Domain(s, COOL_PREFIXES) < COOL_DOMAIN_COUNT
    ensures Excluded(s) ==> Domain(s, TEMP_PREFIXES) == -1 && Domain(s, COOL_PREFIXES) == -1
  {
    if FirstMatch(s, TEMP_PREFIXES) != -1 {
      var k := FirstMatchAt(s, TEMP_PREFIXES);
      TempEntries(TEMP_PREFIXES[k]);
    }
    if FirstMatch(s, COOL_PREFIXES) != -1 {
      var k := FirstMatchAt(s, COOL_PREFIXES);
      CoolEntries(COOL_PREFIXES[k]);
    }
  }
}
