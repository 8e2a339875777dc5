/** The table the endpoint test seeds before each request (`ControllerTest.createTable`),
    as the database then answers `SELECT *`, and both endpoints run over it. */
module SeededTable {
  import opened Rows
  import opened Resources
  import opened Service

  /** The largest value of a PostgreSQL `SERIAL` column. */
  const SerialMax: nat := 0x7fff_ffff

  const NamePrefix: string := "Entity "
  const DescriptionPrefix: string := "Description for Entity "

  function DigitChar(d: nat): (c: char)
    requires d < 10
    ensures '0' <= c <= '9'
  {
    ('0' as int + d) as char
  }

  function DigitValue(c: char): (d: nat)
    requires '0' <= c <= '9'
    ensures d < 10
  {
    c as int - '0' as int
  }

  predicate IsDigits(s: string) {
    forall i :: 0 <= i < |s| ==> '0' <= s[i] <= '9'
  }

  /** Reading a run of decimal digits as a number, most significant digit first. */
  function DigitsValue(s: string): nat
    requires IsDigits(s)
  {
    if s == [] then 0 else DigitsValue(s[..|s| - 1]) * 10 + DigitValue(s[|s| - 1])
  }

  /** Java's `"" + i` for a non-negative `int`: its decimal digits, without leading zeros. */
  function Decimal(n: nat): (s: string)
    ensures |s| >= 1 && IsDigits(s)
    ensures s[0] == '0' ==> n == 0 && s == "0"
  {
    if n < 10 then [DigitChar(n)] else Decimal(n / 10) + [DigitChar(n % 10)]
  }

  /** The text `Decimal` writes reads back as the same number. */
  lemma {:induction false} DecimalRoundTrip(n: nat)
    ensures DigitsValue(Decimal(n)) == n
  {
    var s := Decimal(n);
    if n < 10 {
      assert s[..|s| - 1] == [];
    } else {
      DecimalRoundTrip(n / 10);
      assert s[..|s| - 1] == Decimal(n / 10);
    }
  }

  /** Different numbers are written as different digit strings. */
  lemma DecimalInjective(m: nat, n: nat)
    ensures Decimal(m) == Decimal(n) <==> m == n
  {
    DecimalRoundTrip(m);
    DecimalRoundTrip(n);
  }

  /** A fixed text followed by the index: different indexes give different labels. */
  lemma LabelInjective(prefix: string, m: nat, n: nat)
    ensures prefix + Decimal(m) == prefix + Decimal(n) <==> m == n
  {
    assert (prefix + Decimal(m))[|prefix|..] == Decimal(m);
    assert (prefix + Decimal(n))[|prefix|..] == Decimal(n);
    DecimalInjective(m, n);
  }

  /** No two of the first `n` insertion indexes share a name or a description. */
  lemma SeededLabelsDistinct(n: nat)
    ensures forall i, j :: 0 <= i < j < n ==>
              NamePrefix + Decimal(i) != NamePrefix + Decimal(j) &&
              DescriptionPrefix + Decimal(i) != DescriptionPrefix + Decimal(j)
  {
    forall i, j | 0 <= i < j < n
      ensures NamePrefix + Decimal(i) != NamePrefix + Decimal(j)
      ensures DescriptionPrefix + Decimal(i) != DescriptionPrefix + Decimal(j)
    {
      LabelInjective(NamePrefix, i, j);
      LabelInjective(DescriptionPrefix, i, j);
    }
  }

  /** The test table as the database answers `SELECT *`: the `n` rows in insertion order.
      `TRUNCATE` does not restart the `SERIAL` sequence, so the ids run on from the `k`
      values it has already handed out; names and descriptions carry the 0-based
      insertion index, so no two rows share either. */
  function SeededRows(k: nat, n: nat): (rows: seq<Entity>)
    requires k + n <= SerialMax
    ensures |rows| == n
    ensures forall i :: 0 <= i < n ==> rows[i].id as int == k + i + 1
    ensures forall i :: 0 <= i < n ==>
              rows[i].name == NamePrefix + Decimal(i) && rows[i].description == DescriptionPrefix + Decimal(i)
    ensures forall i, j :: 0 <= i < j < n ==>
              rows[i].name != rows[j].name && rows[i].description != rows[j].description
  {
    SeededLabelsDistinct(n);
    seq(n, i requires 0 <= i < n =>
      Entity((k + i + 1) as int64, NamePrefix + Decimal(i), DescriptionPrefix + Decimal(i)))
  }

  /** The same table as the mapper reads it. */
  function SeededBatisRows(k: nat, n: nat): (rows: seq<BatisEntity>)
    requires k + n <= SerialMax
    ensures |rows| == n
    ensures forall i :: 0 <= i < n ==> SameColumns(SeededRows(k, n)[i], rows[i])
  {
    seq(n, i requires 0 <= i < n =>
      BatisEntity((k + i + 1) as int64, NamePrefix + Decimal(i), DescriptionPrefix + Decimal(i)))
  }

  /** Each endpoint over a freshly seeded table of 9,981 rows, the JDBC one after `k1` ids
      were used up and the MyBatis one after `k2`: each answers 9,981 `Dto`s, in ascending
      id order, with the same names and descriptions; over the same seeding the two
      answers are equal. */
  method EndpointsOverSeededTable(k1: nat, k2: nat) returns (jdbc: Result<seq<Dto>>, batis: Result<seq<Dto>>)
    requires k1 + 9_981 <= SerialMax && k2 + 9_981 <= SerialMax
    ensures jdbc.Ok? && batis.Ok? && |jdbc.value| == 9_981 && |batis.value| == 9_981
    ensures forall i :: 0 <= i < 9_981 ==>
              jdbc.value[i].id as int == k1 + i + 1 && batis.value[i].id as int == k2 + i + 1
    ensures forall i :: 0 <= i < 9_981 ==>
              jdbc.value[i].name == batis.value[i].name == NamePrefix + Decimal(i) &&
              jdbc.value[i].description == batis.value[i].description
    ensures k1 == k2 ==> jdbc == batis
  {
    var n := 9_981;
    var journal := new Journal();
    var dataSource := new DataSource(query => SeededRows(k1, n), None, journal);
    var factory := new SqlSessionFactory(query => SeededBatisRows(k2, n), None, journal);
    var it, producer;
    jdbc, it := FindAllJdbc(dataSource);
    batis, producer := FindAllBatis(factory);
    if k1 == k2 {
      EndpointsAgree(SeededRows(k1, n), SeededBatisRows(k2, n));
    }
  }
}
