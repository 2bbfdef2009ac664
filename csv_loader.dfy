/**
 * The CSV record mapping of the data loader (csv_loader.go): each record
 * becomes a map from header to field, and from it a medal or a part; HP
 * defaults to 50, plus 10 for legs. The CSV reader itself is left to the
 * caller: the header row and the reader's results arrive as values.
 */
module CsvLoader {
  import opened Optional
  import opened Decimal
  import DataStructures

  /** One result of the CSV reader: a record, or an error on that line. */
  datatype ReadResult = Record(fields: seq<string>) | ReadError

  datatype LoadError = HeaderFailed | NothingLoaded

  /** A loader's result: the loaded items, or the error. */
  datatype Loaded<T> = Loaded(items: seq<T>) | Failed(error: LoadError)

  const DEFAULT_PART_HP_BASE: int := 50
  const DEFAULT_LEGS_HP_BONUS: int := 10

  /** parseInt: the trimmed text's 64-bit value, and 0 for an empty or unparsable text. */
  function ParseInt(s: string): int {
    var t := TrimSpace(s);
    if t == "" then 0
    else match Atoi(t)
      case None => 0
      case Some(v) => v
  }

  /** parseInt reads back any 64-bit int written with white space around it. */
  lemma ParseIntRoundTrip(n: int, before: string, after: string)
    requires AllSpace(before) && AllSpace(after) && INT64_MIN <= n <= INT64_MAX
    ensures ParseInt(before + IntToString(n) + after) == n
  {
    IntToStringEdges(n);
    TrimPadded(before, IntToString(n), after);
    AtoiRules(n, "");
  }

  /** parseInt gives 0 for a blank text and for one Atoi rejects, and never leaves the 64-bit range. */
  lemma ParseIntRules(s: string)
    ensures AllSpace(s) ==> ParseInt(s) == 0
    ensures Atoi(TrimSpace(s)).None? ==> ParseInt(s) == 0
    ensures INT64_MIN <= ParseInt(s) <= INT64_MAX
  {
    if AllSpace(s) {
      assert TrimLeft(s) == [];
    }
  }

  /** The row as a map from header to field: the i-th header names the i-th field, a repeated header keeping its last field. */
  function RowOf(headers: seq<string>, record: seq<string>): (m: map<string, string>)
    requires |headers| <= |record|
    ensures m.Keys == set h | h in headers
  {
    if headers == [] then map[]
    else RowOf(headers[..|headers| - 1], record)[headers[|headers| - 1] := record[|headers| - 1]]
  }

  predicate Distinct(headers: seq<string>) {
    forall i, j :: 0 <= i < j < |headers| ==> headers[i] != headers[j]
  }

  /** With distinct headers, each header's entry is the field in its column. */
  lemma {:induction false} RowByName(headers: seq<string>, record: seq<string>)
    requires |headers| <= |record| && Distinct(headers)
    ensures forall j :: 0 <= j < |headers| ==> RowOf(headers, record)[headers[j]] == record[j]
  {
    if headers != [] {
      var init := headers[..|headers| - 1];
      assert Distinct(init) by {
        forall i, j | 0 <= i < j < |init| ensures init[i] != init[j] {
          assert init[i] == headers[i] && init[j] == headers[j];
        }
      }
      RowByName(init, record);
      forall j | 0 <= j < |headers| - 1
        ensures RowOf(headers, record)[headers[j]] == record[j]
      {
        assert init[j] == headers[j];
        assert headers[j] != headers[|headers| - 1];
      }
    }
  }

  /** Every entry of the first layout's row is in the second's, when the second has each named field. */
  lemma RowIncluded(h1: seq<string>, r1: seq<string>, h2: seq<string>, r2: seq<string>)
    requires |h1| <= |r1| && |h2| <= |r2| && Distinct(h1) && Distinct(h2)
    requires forall j :: 0 <= j < |h1| ==> exists k :: 0 <= k < |h2| && h2[k] == h1[j] && r2[k] == r1[j]
    ensures forall name :: name in RowOf(h1, r1) ==> name in RowOf(h2, r2) && RowOf(h2, r2)[name] == RowOf(h1, r1)[name]
  {
    RowByName(h1, r1);
    RowByName(h2, r2);
    var m1, m2 := RowOf(h1, r1), RowOf(h2, r2);
    forall name | name in m1
      ensures name in m2 && m2[name] == m1[name]
    {
      assert name in (set h | h in h1);
      var j :| 0 <= j < |h1| && h1[j] == name;
      var k :| 0 <= k < |h2| && h2[k] == h1[j] && r2[k] == r1[j];
      assert h2[k] in (set h | h in h2);
    }
  }

  /**
   * Fields are found by name, so the column order does not matter: two
   * layouts with distinct headers that put the same field under every name
   * give the same row.
   */
  lemma ColumnOrderIrrelevant(h1: seq<string>, r1: seq<string>, h2: seq<string>, r2: seq<string>)
    requires |h1| <= |r1| && |h2| <= |r2| && Distinct(h1) && Distinct(h2)
    requires forall j :: 0 <= j < |h1| ==> exists k :: 0 <= k < |h2| && h2[k] == h1[j] && r2[k] == r1[j]
    requires EveryNameIn(h2, h1)
    ensures RowOf(h1, r1) == RowOf(h2, r2)
  {
    var m1, m2 := RowOf(h1, r1), RowOf(h2, r2);
    RowIncluded(h1, r1, h2, r2);
    NamesIncluded(h2, h1);
    assert m2.Keys <= m1.Keys;
    SameMap(m1, m2);
  }

  /** Every header of h2 also heads a column of h1. */
  predicate EveryNameIn(h2: seq<string>, h1: seq<string>) {
    forall k :: 0 <= k < |h2| ==> exists j :: 0 <= j < |h1| && h1[j] == h2[k]
  }

  /** Every name of the first header row is in the second, when each has a column there. */
  lemma NamesIncluded(h2: seq<string>, h1: seq<string>)
    requires EveryNameIn(h2, h1)
    ensures (set h | h in h2) <= (set h | h in h1)
  {
    forall name | name in h2
      ensures name in h1
    {
      var k :| 0 <= k < |h2| && h2[k] == name;
      var j :| 0 <= j < |h1| && h1[j] == h2[k];
    }
  }

  /** Two maps with the same entries and no key of the second missing from the first are equal. */
  lemma SameMap(m1: map<string, string>, m2: map<string, string>)
    requires forall name :: name in m1 ==> name in m2 && m2[name] == m1[name]
    requires m2.Keys <= m1.Keys
    ensures m1 == m2
  {
    assert m1.Keys == m2.Keys;
  }

  /** The loop that fills the row's map. */
  method BuildRow(headers: seq<string>, record: seq<string>) returns (data: map<string, string>)
    requires |headers| <= |record|
    ensures data == RowOf(headers, record)
  {
    data := map[];
    var i := 0;
    while i < |headers|
      invariant 0 <= i <= |headers|
      invariant data == RowOf(headers[..i], record)
    {
      assert headers[..i + 1][..i] == headers[..i];
      data := data[headers[i] := record[i]];
      i := i + 1;
    }
    assert headers[..i] == headers;
  }

  /** Go's map index: the field under the name, or "" when there is no such column. */
  function Field(data: map<string, string>, name: string): string {
    if name in data then data[name] else ""
  }

  /** The medal a row describes. */
  function MedalOf(data: map<string, string>): DataStructures.Medal {
    DataStructures.Medal(Field(data, "id"), Field(data, "name_jp"), Field(data, "personality_jp"),
                         Field(data, "medaforce_jp"), Field(data, "attribute_jp"),
                         ParseInt(Field(data, "skill_shoot")), ParseInt(Field(data, "skill_fight")),
                         ParseInt(Field(data, "skill_scan")), ParseInt(Field(data, "skill_support")))
  }

  /**
   * A part's HP: the base HP, or the default when that reads as 0, plus the
   * legs bonus in Go's 64-bit int arithmetic.
   */
  function PartHp(baseHp: string, slotName: string): int {
    var hp := ParseInt(baseHp);
    var hp := if hp == 0 then DEFAULT_PART_HP_BASE else hp;
    if slotName == "legs" then WrapInt64(hp + DEFAULT_LEGS_HP_BONUS) else hp
  }

  /**
   * A blank or unparsable base HP gives 50, or 60 for legs; a written
   * nonzero base HP is kept, plus 10 for legs, where a base HP within 10 of
   * the largest 64-bit int wraps round to a negative HP; HP is always a
   * 64-bit int and never 0 apart from the legs bonus.
   */
  lemma PartHpRules(baseHp: string, slotName: string, n: int)
    ensures var bonus := if slotName == "legs" then 10 else 0;
      && (AllSpace(baseHp) || Atoi(TrimSpace(baseHp)).None? ==> PartHp(baseHp, slotName) == 50 + bonus)
      && (n != 0 && INT64_MIN <= n <= INT64_MAX - bonus ==> PartHp(IntToString(n), slotName) == n + bonus)
      && (INT64_MAX - bonus < n <= INT64_MAX ==> PartHp(IntToString(n), slotName) == n + bonus - INT64_MODULUS)
      && INT64_MIN <= PartHp(baseHp, slotName) <= INT64_MAX
      && PartHp(baseHp, slotName) != bonus
  {
    ParseIntRules(baseHp);
    BonusHp(ParseInt(baseHp), slotName);
    if n != 0 && INT64_MIN <= n <= INT64_MAX {
      WrittenHp(n);
      BonusHp(n, slotName);
    }
  }

  /** The HP PartHp makes of a parsed base HP, with the legs bonus wrapping past the top. */
  lemma BonusHp(hp: int, slotName: string)
    requires INT64_MIN <= hp <= INT64_MAX
    ensures var bonus := if slotName == "legs" then DEFAULT_LEGS_HP_BONUS else 0;
      var base := if hp == 0 then DEFAULT_PART_HP_BASE else hp;
      var r := if slotName == "legs" then WrapInt64(base + DEFAULT_LEGS_HP_BONUS) else base;
      && INT64_MIN <= r <= INT64_MAX && r != bonus
      && (base <= INT64_MAX - bonus ==> r == base + bonus)
      && (base > INT64_MAX - bonus ==> r == base + bonus - INT64_MODULUS)
  {
  }

  /** A written 64-bit base HP is read back. */
  lemma WrittenHp(n: int)
    requires INT64_MIN <= n <= INT64_MAX
    ensures ParseInt(IntToString(n)) == n
  {
    ParseIntRoundTrip(n, "", "");
    assert "" + IntToString(n) + "" == IntToString(n);
  }

  /** The part a row describes, for the slot the file holds. */
  function PartOf(data: map<string, string>, slotName: string): DataStructures.Part {
    var hp := PartHp(Field(data, "base_hp"), slotName);
    DataStructures.Part(Field(data, "id"), Field(data, "name_jp"), Field(data, "category_jp"),
                        Field(data, "sub_category_jp"), slotName, hp, hp,
                        ParseInt(Field(data, "charge")), ParseInt(Field(data, "cooldown")), false,
                        Field(data, "movement_type_jp"), ParseInt(Field(data, "accuracy")),
                        ParseInt(Field(data, "mobility")), ParseInt(Field(data, "propulsion")),
                        ParseInt(Field(data, "defense_param")), Field(data, "set_id"))
  }

  /** The row of a reader result that is kept: a record at least as long as the header row whose id is not empty. */
  function KeptRow(headers: seq<string>, result: ReadResult): Option<map<string, string>> {
    if result.ReadError? || |result.fields| < |headers| then None
    else
      var data := RowOf(headers, result.fields);
      if Field(data, "id") == "" then None else Some(data)
  }

  /** The medals of the reader's results, in order: one per kept row. */
  function MedalsOf(headers: seq<string>, results: seq<ReadResult>): seq<DataStructures.Medal> {
    if results == [] then []
    else
      var rest := MedalsOf(headers, results[..|results| - 1]);
      match KeptRow(headers, results[|results| - 1])
      case None => rest
      case Some(data) => rest + [MedalOf(data)]
  }

  /** The parts of the reader's results, in order: one per kept row. */
  function PartsOf(headers: seq<string>, results: seq<ReadResult>, slotName: string): seq<DataStructures.Part> {
    if results == [] then []
    else
      var rest := PartsOf(headers, results[..|results| - 1], slotName);
      match KeptRow(headers, results[|results| - 1])
      case None => rest
      case Some(data) => rest + [PartOf(data, slotName)]
  }

  /** Some reader result is kept. */
  predicate AnyKept(headers: seq<string>, results: seq<ReadResult>) {
    exists i :: 0 <= i < |results| && KeptRow(headers, results[i]).Some?
  }

  /**
   * One medal per kept row and no more: the medals are empty exactly when
   * no row is kept, and every medal has an id and comes from a kept row.
   */
  lemma MedalsOfRules(headers: seq<string>, results: seq<ReadResult>)
    ensures |MedalsOf(headers, results)| <= |results|
    ensures MedalsOf(headers, results) == [] <==> !AnyKept(headers, results)
    ensures forall m :: m in MedalsOf(headers, results) ==>
      m.id != "" && exists i :: 0 <= i < |results| && KeptRow(headers, results[i]).Some?
                               && m == MedalOf(KeptRow(headers, results[i]).value)
  {
    MedalsOfCount(headers, results);
    MedalsOfEach(headers, results);
  }

  lemma MedalsOfCount(headers: seq<string>, results: seq<ReadResult>)
    ensures |MedalsOf(headers, results)| <= |results|
    ensures MedalsOf(headers, results) == [] <==> !AnyKept(headers, results)
  {
    MedalsOfLength(headers, results);
    if AnyKept(headers, results) {
      var i :| 0 <= i < |results| && KeptRow(headers, results[i]).Some?;
      KeptMedalListed(headers, results, i);
    }
    if MedalsOf(headers, results) != [] {
      MedalFromKeptRow(headers, results, MedalsOf(headers, results)[0]);
    }
  }

  lemma {:induction false} MedalsOfLength(headers: seq<string>, results: seq<ReadResult>)
    ensures |MedalsOf(headers, results)| <= |results|
  {
    if results != [] {
      MedalsOfLength(headers, results[..|results| - 1]);
    }
  }

  /** A kept row yields a medal. */
  lemma {:induction false} KeptMedalListed(headers: seq<string>, results: seq<ReadResult>, i: nat)
    requires i < |results| && KeptRow(headers, results[i]).Some?
    ensures MedalsOf(headers, results) != []
  {
    var init := results[..|results| - 1];
    if i < |init| {
      assert init[i] == results[i];
      KeptMedalListed(headers, init, i);
    }
  }

  /** The kept row a medal comes from. */
  lemma {:induction false} MedalSource(headers: seq<string>, results: seq<ReadResult>, m: DataStructures.Medal)
    returns (i: nat)
    requires m in MedalsOf(headers, results)
    ensures i < |results| && KeptRow(headers, results[i]).Some? && m == MedalOf(KeptRow(headers, results[i]).value)
  {
    var init := results[..|results| - 1];
    if m in MedalsOf(headers, init) {
      i := MedalSource(headers, init, m);
      assert init[i] == results[i];
    } else {
      i := |results| - 1;
    }
  }

  /** Each medal has an id and comes from a kept row. */
  lemma MedalFromKeptRow(headers: seq<string>, results: seq<ReadResult>, m: DataStructures.Medal)
    requires m in MedalsOf(headers, results)
    ensures m.id != "" && exists i :: 0 <= i < |results| && KeptRow(headers, results[i]).Some?
                                    && m == MedalOf(KeptRow(headers, results[i]).value)
  {
    var i := MedalSource(headers, results, m);
  }

  lemma MedalsOfEach(headers: seq<string>, results: seq<ReadResult>)
    ensures forall m :: m in MedalsOf(headers, results) ==>
      m.id != "" && exists i :: 0 <= i < |results| && KeptRow(headers, results[i]).Some?
                               && m == MedalOf(KeptRow(headers, results[i]).value)
  {
    forall m | m in MedalsOf(headers, results)
      ensures m.id != "" && exists i :: 0 <= i < |results| && KeptRow(headers, results[i]).Some?
                                      && m == MedalOf(KeptRow(headers, results[i]).value)
    {
      MedalFromKeptRow(headers, results, m);
    }
  }

  /**
   * One part per kept row and no more, each with full HP, intact, in the
   * file's slot, with an id, and with the HP its row gives.
   */
  lemma PartsOfRules(headers: seq<string>, results: seq<ReadResult>, slotName: string)
    ensures |PartsOf(headers, results, slotName)| <= |results|
    ensures PartsOf(headers, results, slotName) == [] <==> !AnyKept(headers, results)
    ensures forall p :: p in PartsOf(headers, results, slotName) ==>
      && p.hp == p.maxHp && !p.isBroken && p.slot == slotName && p.id != ""
      && exists i :: 0 <= i < |results| && KeptRow(headers, results[i]).Some?
                     && p.hp == PartHp(Field(KeptRow(headers, results[i]).value, "base_hp"), slotName)
  {
    PartsOfCount(headers, results, slotName);
    PartsOfEach(headers, results, slotName);
  }

  lemma PartsOfCount(headers: seq<string>, results: seq<ReadResult>, slotName: string)
    ensures |PartsOf(headers, results, slotName)| <= |results|
    ensures PartsOf(headers, results, slotName) == [] <==> !AnyKept(headers, results)
  {
    PartsOfLength(headers, results, slotName);
    if AnyKept(headers, results) {
      var i :| 0 <= i < |results| && KeptRow(headers, results[i]).Some?;
      KeptPartListed(headers, results, slotName, i);
    }
    if PartsOf(headers, results, slotName) != [] {
      PartFromKeptRow(headers, results, slotName, PartsOf(headers, results, slotName)[0]);
    }
  }

  lemma {:induction false} PartsOfLength(headers: seq<string>, results: seq<ReadResult>, slotName: string)
    ensures |PartsOf(headers, results, slotName)| <= |results|
  {
    if results != [] {
      PartsOfLength(headers, results[..|results| - 1], slotName);
    }
  }

  /** A kept row yields a part. */
  lemma {:induction false} KeptPartListed(headers: seq<string>, results: seq<ReadResult>, slotName: string, i: nat)
    requires i < |results| && KeptRow(headers, results[i]).Some?
    ensures PartsOf(headers, results, slotName) != []
  {
    var init := results[..|results| - 1];
    if i < |init| {
      assert init[i] == results[i];
      KeptPartListed(headers, init, slotName, i);
    }
  }

  /** The kept row a part comes from. */
  lemma {:induction false} PartSource(headers: seq<string>, results: seq<ReadResult>, slotName: string,
                                      p: DataStructures.Part) returns (i: nat)
    requires p in PartsOf(headers, results, slotName)
    ensures i < |results| && KeptRow(headers, results[i]).Some? && p == PartOf(KeptRow(headers, results[i]).value, slotName)
  {
    var init := results[..|results| - 1];
    if p in PartsOf(headers, init, slotName) {
      i := PartSource(headers, init, slotName, p);
      assert init[i] == results[i];
    } else {
      i := |results| - 1;
    }
  }

  /** Each part is intact at full HP in the file's slot, has an id, and comes from a kept row. */
  lemma PartFromKeptRow(headers: seq<string>, results: seq<ReadResult>, slotName: string, p: DataStructures.Part)
    requires p in PartsOf(headers, results, slotName)
    ensures && p.hp == p.maxHp && !p.isBroken && p.slot == slotName && p.id != ""
            && exists i :: 0 <= i < |results| && KeptRow(headers, results[i]).Some?
                           && p.hp == PartHp(Field(KeptRow(headers, results[i]).value, "base_hp"), slotName)
  {
    var i := PartSource(headers, results, slotName, p);
  }

  lemma PartsOfEach(headers: seq<string>, results: seq<ReadResult>, slotName: string)
    ensures forall p :: p in PartsOf(headers, results, slotName) ==>
      && p.hp == p.maxHp && !p.isBroken && p.slot == slotName && p.id != ""
      && exists i :: 0 <= i < |results| && KeptRow(headers, results[i]).Some?
                     && p.hp == PartHp(Field(KeptRow(headers, results[i]).value, "base_hp"), slotName)
  {
    forall p | p in PartsOf(headers, results, slotName)
      ensures && p.hp == p.maxHp && !p.isBroken && p.slot == slotName && p.id != ""
              && exists i :: 0 <= i < |results| && KeptRow(headers, results[i]).Some?
                             && p.hp == PartHp(Field(KeptRow(headers, results[i]).value, "base_hp"), slotName)
    {
      PartFromKeptRow(headers, results, slotName, p);
    }
  }

  /** One more reader result adds its medal when its row is kept. */
  lemma MedalsOfPrefix(headers: seq<string>, results: seq<ReadResult>, i: nat)
    requires i < |results|
    ensures MedalsOf(headers, results[..i + 1])
         == MedalsOf(headers, results[..i])
            + (if KeptRow(headers, results[i]).Some? then [MedalOf(KeptRow(headers, results[i]).value)] else [])
  {
    assert results[..i + 1][..i] == results[..i];
  }

  /** One more reader result adds its part when its row is kept. */
  lemma PartsOfPrefix(headers: seq<string>, results: seq<ReadResult>, slotName: string, i: nat)
    requires i < |results|
    ensures PartsOf(headers, results[..i + 1], slotName)
         == PartsOf(headers, results[..i], slotName)
            + (if KeptRow(headers, results[i]).Some? then [PartOf(KeptRow(headers, results[i]).value, slotName)] else [])
  {
    assert results[..i + 1][..i] == results[..i];
  }

  /** The row of one reader result, step by step. */
  method ReadRow(headers: seq<string>, result: ReadResult) returns (row: Option<map<string, string>>)
    ensures row == KeptRow(headers, result)
  {
    if result.ReadError? {
      return None;
    }
    var record := result.fields;
    if |record| < |headers| {
      return None;
    }
    var data := BuildRow(headers, record);
    if Field(data, "id") == "" {
      return None;
    }
    return Some(data);
  }

  /** The record loop of LoadMedals: the medal of every kept row, in order. */
  method ReadMedals(headers: seq<string>, results: seq<ReadResult>) returns (medals: seq<DataStructures.Medal>)
    ensures medals == MedalsOf(headers, results)
  {
    medals := [];
    var i := 0;
    while i < |results|
      invariant 0 <= i <= |results|
      invariant medals == MedalsOf(headers, results[..i])
    {
      MedalsOfPrefix(headers, results, i);
      var row := ReadRow(headers, results[i]);
      if row.Some? {
        medals := medals + [MedalOf(row.value)];
      }
      i := i + 1;
    }
    assert results[..i] == results;
  }

  /**
   * LoadMedals: a failed header row is an error; otherwise the medals of
   * the kept rows, and an error when there is none.
   */
  method LoadMedals(headers: Option<seq<string>>, results: seq<ReadResult>) returns (r: Loaded<DataStructures.Medal>)
    ensures headers.None? ==> r == Failed(HeaderFailed)
    ensures headers.Some? ==>
      r == (if MedalsOf(headers.value, results) == [] then Failed(NothingLoaded) else Loaded(MedalsOf(headers.value, results)))
  {
    if headers.None? {
      return Failed(HeaderFailed);
    }
    var medals := ReadMedals(headers.value, results);
    if |medals| == 0 {
      return Failed(NothingLoaded);
    }
    return Loaded(medals);
  }

  /** The record loop of LoadParts: the part of every kept row, in order. */
  method ReadParts(headers: seq<string>, results: seq<ReadResult>, slotName: string)
    returns (parts: seq<DataStructures.Part>)
    ensures parts == PartsOf(headers, results, slotName)
  {
    parts := [];
    var i := 0;
    while i < |results|
      invariant 0 <= i <= |results|
      invariant parts == PartsOf(headers, results[..i], slotName)
    {
      PartsOfPrefix(headers, results, slotName, i);
      var row := ReadRow(headers, results[i]);
      if row.Some? {
        parts := parts + [PartOf(row.value, slotName)];
      }
      i := i + 1;
    }
    assert results[..i] == results;
  }

  /**
   * LoadParts: a failed header row is an error; otherwise the parts of the
   * kept rows for the slot, and an error when there is none.
   */
  method LoadParts(headers: Option<seq<string>>, results: seq<ReadResult>, slotName: string)
    returns (r: Loaded<DataStructures.Part>)
    ensures headers.None? ==> r == Failed(HeaderFailed)
    ensures headers.Some? ==>
      r == (if PartsOf(headers.value, results, slotName) == [] then Failed(NothingLoaded)
            else Loaded(PartsOf(headers.value, results, slotName)))
  {
    if headers.None? {
      return Failed(HeaderFailed);
    }
    var parts := ReadParts(headers.value, results, slotName);
    if |parts| == 0 {
      return Failed(NothingLoaded);
    }
    return Loaded(parts);
  }
}
