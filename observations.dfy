// The raw records of the economic-data API and the country filter of
// the series normaliser (App.jsx, `gdpData.filter(item => item.Country)`).

module Observations {

  /** The `Country` field of one API record: absent (missing or null), or a string. */
  datatype CountryField = Absent | Text(name: string)

  /**
   * One API record. `dateTime` is the parsed `DateTime` field, taken as an
   * abstract timestamp on a total order (milliseconds since the epoch in the
   * source); `value` is the `Value` field.
   */
  datatype Observation = Observation(country: CountryField, dateTime: int, value: real)

  /** JavaScript truthiness of `item.Country`: absent, null and "" are falsy. */
  predicate HasCountry(o: Observation): (truthy: bool)
    ensures o.country == Absent ==> !truthy
    ensures o.country == Text("") ==> !truthy
    ensures o.country.Text? && |o.country.name| > 0 ==> truthy
  {
    o.country.Text? && o.country.name != ""
  }

  /** The records kept by the filter, in input order. */
  function Retained(raw: seq<Observation>): (kept: seq<Observation>)
    ensures |kept| <= |raw|
  {
    if raw == [] then []
    else (if HasCountry(raw[0]) then [raw[0]] else []) + Retained(raw[1..])
  }

  /**
   * A record occurs among the kept ones exactly as often as in the input
   * when it names a country, and never otherwise.
   */
  lemma {:induction false} RetainedCounts(raw: seq<Observation>)
    ensures forall o :: multiset(Retained(raw))[o] == if HasCountry(o) then multiset(raw)[o] else 0
  {
    if raw != [] {
      RetainedCounts(raw[1..]);
      assert raw == [raw[0]] + raw[1..];
    }
  }

  /** Every kept record names a country and comes from the input, and every such record is kept. */
  lemma RetainedMembers(raw: seq<Observation>, o: Observation)
    ensures o in Retained(raw) <==> o in raw && HasCountry(o)
  {
  }

  /** The filter works record by record: it distributes over concatenation. */
  lemma {:induction false} RetainedAppend(a: seq<Observation>, b: seq<Observation>)
    ensures Retained(a + b) == Retained(a) + Retained(b)
  {
    if a == [] {
      assert a + b == b;
    } else {
      var head := if HasCountry(a[0]) then [a[0]] else [];
      calc {
        Retained(a + b);
        { assert (a + b)[0] == a[0]; assert (a + b)[1..] == a[1..] + b; }
        head + Retained(a[1..] + b);
        { RetainedAppend(a[1..], b); }
        head + (Retained(a[1..]) + Retained(b));
        (head + Retained(a[1..])) + Retained(b);
        Retained(a) + Retained(b);
      }
    }
  }

  /** A record without a country leaves the filtered records unchanged, wherever it stands. */
  lemma {:induction false} FalsyRecordDropped(a: seq<Observation>, x: Observation, b: seq<Observation>)
    requires !HasCountry(x)
    ensures Retained(a + [x] + b) == Retained(a + b)
  {
    assert Retained([x]) == [] by {
      assert [x][1..] == [];
    }
    calc {
      Retained(a + [x] + b);
      { RetainedAppend(a + [x], b); }
      Retained(a + [x]) + Retained(b);
      { RetainedAppend(a, [x]); }
      Retained(a) + Retained([x]) + Retained(b);
      Retained(a) + Retained(b);
      { RetainedAppend(a, b); }
      Retained(a + b);
    }
  }

  /** When no record names a country the filter keeps nothing. */
  lemma {:induction false} NothingRetained(raw: seq<Observation>)
    requires forall i :: 0 <= i < |raw| ==> !HasCountry(raw[i])
    ensures Retained(raw) == []
  {
    if raw != [] {
      NothingRetained(raw[1..]);
    }
  }
}
