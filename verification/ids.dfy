/** The identifier branch of `FHIRDataGenerator.generate_value`: columns
    named `id` or ending in `_id` get `<resource in lower case>-<counter,
    six digits>`, skipping numbers whose identifier is already taken. The
    counter advances once for every generated value, whatever the column. */
module IdGen {
  import opened Text
  import opened Naming
  import opened Optional

  /** The generator's state: the resource name, the value counter and the
      identifiers handed out so far. */
  datatype Generator = Generator(resource: string, counter: nat, usedIds: set<string>)

  /** A fresh generator (`__init__`). */
  function NewGenerator(resource: string): (g: Generator)
    ensures g.counter == 0 && g.usedIds == {} && g.resource == resource
  {
    Generator(resource, 0, {})
  }

  /** Whether a column receives an identifier: its lower-cased name is
      `id` or ends in `_id`. */
  predicate IsIdColumn(column: string)
  {
    var col := LowerAll(column);
    col == "id" || (|col| >= 3 && col[|col| - 3..] == "_id")
  }

  /** `f"{resource.lower()}-{n:06d}"`: the lower-cased resource name, a
      dash, and at least six digits. */
  function IdFor(resource: string, n: nat): (id: string)
    ensures |id| >= |resource| + 7
  {
    LowerAll(resource) + "-" + ZeroPadded(n, 6)
  }

  /** Which columns count as identifiers: the test is on the lower-cased
      name, and an `id` suffix without the underscore does not count. */
  lemma IdColumnExamples()
    ensures IsIdColumn("ID") && IsIdColumn("a_Id")
    ensures !IsIdColumn("pid") && !IsIdColumn("idx")
  {
    assert LowerAll("ID") == "id";
    assert LowerAll("a_Id") == "a_id";
    assert LowerAll("pid") == "pid";
    assert LowerAll("idx") == "idx";
  }

  /** The first identifier of a `Patient` generator. */
  lemma FirstPatientId()
    ensures IdFor("Patient", 1) == "patient-000001"
  {
    assert LowerAll("Patient") == "patient";
    assert Decimal(1) == "1";
    assert Zeros(5) == "00000";
  }

  /** The format of an identifier: the lower-cased resource name, a `-`,
      and the number's digits, zero-padded to six: exactly six digits, or
      more without a leading zero. The digits read back as the number. */
  lemma IdForFormat(resource: string, n: nat)
    ensures var id := IdFor(resource, n);
            var digits := id[|resource| + 1..];
            id[..|resource|] == LowerAll(resource) && id[|resource|] == '-' &&
            AllDigits(digits) && |digits| >= 6 && (|digits| == 6 || digits[0] != '0') &&
            DecimalValue(digits) == n
  {
    var id := IdFor(resource, n);
    assert id[|resource| + 1..] == ZeroPadded(n, 6);
    ZeroPaddedRoundTrip(n, 6);
  }

  /** Distinct numbers give distinct identifiers for the same resource. */
  lemma IdForInjective(resource: string, m: nat, n: nat)
    requires m != n
    ensures IdFor(resource, m) != IdFor(resource, n)
  {
    IdForFormat(resource, m);
    IdForFormat(resource, n);
  }

  /** The identifiers of the numbers `lo`, ..., `hi - 1`. */
  function IdsBetween(resource: string, lo: nat, hi: nat): (ids: set<string>)
    ensures forall k :: lo <= k < hi ==> IdFor(resource, k) in ids
    decreases hi
  {
    if hi <= lo then {} else IdsBetween(resource, lo, hi - 1) + {IdFor(resource, hi - 1)}
  }

  /** The identifier of a number outside `lo .. hi - 1` is not among theirs. */
  lemma {:induction false} IdsBetweenOnly(resource: string, lo: nat, hi: nat, n: nat)
    requires n < lo || hi <= n
    ensures IdFor(resource, n) !in IdsBetween(resource, lo, hi)
    decreases hi
  {
    if lo < hi {
      IdsBetweenOnly(resource, lo, hi - 1, n);
      IdForInjective(resource, n, hi - 1);
    }
  }

  /** One step of the search for a free identifier: passing over a used
      identifier leaves fewer used identifiers not yet passed over. */
  lemma PassUsed(resource: string, lo: nat, counter: nat, used: set<string>)
    requires lo <= counter
    requires IdsBetween(resource, lo, counter) <= used
    requires IdFor(resource, counter) in used
    ensures IdsBetween(resource, lo, counter + 1) == IdsBetween(resource, lo, counter) + {IdFor(resource, counter)}
    ensures IdsBetween(resource, lo, counter + 1) <= used
    ensures |used - IdsBetween(resource, lo, counter + 1)| < |used - IdsBetween(resource, lo, counter)|
  {
    var passed, id := IdsBetween(resource, lo, counter), IdFor(resource, counter);
    IdsBetweenOnly(resource, lo, counter, counter);
    assert used - (passed + {id}) < used - passed;
  }

  /** The loop of the identifier branch, after the counter has advanced:
      the first number from the counter on whose identifier is free. The
      identifier is new, recorded as used, and every number it skipped had
      its identifier taken. */
  method NextFreeId(g: Generator) returns (g': Generator, id: string)
    ensures g'.resource == g.resource
    ensures g'.counter >= g.counter
    ensures id == IdFor(g.resource, g'.counter)
    ensures id !in g.usedIds
    ensures forall k :: g.counter <= k < g'.counter ==> IdFor(g.resource, k) in g.usedIds
    ensures g'.usedIds == g.usedIds + {id}
  {
    var counter := g.counter;
    id := IdFor(g.resource, counter);
    while id in g.usedIds
      invariant g.counter <= counter
      invariant id == IdFor(g.resource, counter)
      invariant IdsBetween(g.resource, g.counter, counter) <= g.usedIds
      decreases |g.usedIds - IdsBetween(g.resource, g.counter, counter)|
    {
      PassUsed(g.resource, g.counter, counter, g.usedIds);
      counter := counter + 1;
      id := IdFor(g.resource, counter);
    }
    g' := Generator(g.resource, counter, g.usedIds + {id});
  }

  /** `generate_value` restricted to what the identifier columns need: the
      counter advances, and an identifier column receives the first free
      identifier from the advanced counter on. Other columns receive values
      this model does not generate (`None` here). */
  method GenerateValue(g: Generator, column: string) returns (g': Generator, value: Option<string>)
    ensures g'.resource == g.resource
    ensures g'.counter > g.counter
    ensures !IsIdColumn(column) ==> value.None? && g' == g.(counter := g.counter + 1)
    ensures IsIdColumn(column) ==>
              value.Some? && value.value !in g.usedIds &&
              value.value == IdFor(g.resource, g'.counter) &&
              g'.usedIds == g.usedIds + {value.value} &&
              forall k :: g.counter < k < g'.counter ==> IdFor(g.resource, k) in g.usedIds
  {
    var advanced := g.(counter := g.counter + 1);
    if IsIdColumn(column) {
      var id;
      g', id := NextFreeId(advanced);
      value := Some(id);
    } else {
      g' := advanced;
      value := None;
    }
  }

  /** Identifiers handed out by one generator never repeat: two identifier
      columns in a row receive different identifiers. */
  method TwoIds(g: Generator, a: string, b: string) returns (first: string, second: string)
    requires IsIdColumn(a) && IsIdColumn(b)
    ensures first != second
    ensures first !in g.usedIds && second !in g.usedIds
  {
    var g1, v1 := GenerateValue(g, a);
    var g2, v2 := GenerateValue(g1, b);
    first := v1.value;
    second := v2.value;
  }
}
