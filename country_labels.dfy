// The country picker's label table (App.jsx): the `countries` list, the
// `countryMap` object that a `reduce` builds from it, and the heading's
// lookup `countryMap[country] || 'Unknown'`.

module CountryLabels {

  /** One entry of the picker: the slug sent to the API (`value`) and the label shown (`label`, a reserved word here). */
  datatype CountryOption = CountryOption(value: string, caption: string)

  /** The four countries the dashboard offers. */
  const Countries: seq<CountryOption> := [
    CountryOption("mexico", "Mexico"),
    CountryOption("sweden", "Sweden"),
    CountryOption("new zealand", "New Zealand"),
    CountryOption("thailand", "Thailand")
  ]

  /** The object the `reduce` builds from `options`, one assignment per entry in order. */
  function LabelMap(options: seq<CountryOption>): (m: map<string, string>)
    ensures |m| <= |options|
    ensures options != [] ==> options[|options| - 1].value in m && m[options[|options| - 1].value] == options[|options| - 1].caption
    decreases |options|
  {
    if options == [] then map[]
    else
      var n := |options|;
      LabelMap(options[..n - 1])[options[n - 1].value := options[n - 1].caption]
  }

  /** The map has a key for every slug of the list and for nothing else. */
  lemma {:induction false} LabelMapKeys(options: seq<CountryOption>, k: string)
    ensures k in LabelMap(options) <==> exists i :: 0 <= i < |options| && options[i].value == k
    decreases |options|
  {
    if options != [] {
      var n := |options|;
      var init := options[..n - 1];
      LabelMapKeys(init, k);
      if k in LabelMap(init) {
        var i :| 0 <= i < |init| && init[i].value == k;
        assert options[i].value == k;
      }
      if i :| 0 <= i < n && options[i].value == k {
        if i < n - 1 {
          assert init[i].value == k;
        }
      }
    }
  }

  /**
   * A slug is mapped to the label of its last entry: a later assignment
   * overwrites an earlier one.
   */
  lemma {:induction false} LabelMapLastWins(options: seq<CountryOption>, i: int)
    requires 0 <= i < |options|
    requires forall j :: i < j < |options| ==> options[j].value != options[i].value
    ensures options[i].value in LabelMap(options)
    ensures LabelMap(options)[options[i].value] == options[i].caption
    decreases |options|
  {
    var n := |options|;
    if i < n - 1 {
      var init := options[..n - 1];
      assert init[i] == options[i];
      LabelMapLastWins(init, i);
    }
  }

  /** The `reduce`: starts from an empty object and assigns one key per entry. */
  method BuildCountryMap(options: seq<CountryOption>) returns (acc: map<string, string>)
    ensures acc == LabelMap(options)
  {
    acc := map[];
    for i := 0 to |options|
      invariant acc == LabelMap(options[..i])
    {
      assert options[..i + 1][..i] == options[..i];
      acc := acc[options[i].value := options[i].caption];
    }
    assert options[..|options|] == options;
  }

  /**
   * `countryMap[country] || 'Unknown'`: the label when the key is present
   * and its label is not empty, "Unknown" otherwise.
   */
  function DisplayName(countryMap: map<string, string>, country: string): (name: string)
    ensures name != ""
    ensures name == "Unknown" || (country in countryMap && name == countryMap[country])
  {
    if country in countryMap && countryMap[country] != "" then countryMap[country] else "Unknown"
  }

  /** The dashboard's map holds exactly the four slugs, each with its own label. */
  lemma CountryMapContents()
    ensures LabelMap(Countries) == map["mexico" := "Mexico", "sweden" := "Sweden",
                                       "new zealand" := "New Zealand", "thailand" := "Thailand"]
  {
    var c := Countries;
    assert c[..3][..2][..1][..0] == [];
    assert LabelMap(c[..3][..2][..1]) == map["mexico" := "Mexico"];
    assert LabelMap(c[..3][..2]) == map["mexico" := "Mexico", "sweden" := "Sweden"];
    assert LabelMap(c[..3]) == map["mexico" := "Mexico", "sweden" := "Sweden", "new zealand" := "New Zealand"];
  }

  /**
   * The heading shows the label of every offered country, and "Unknown" for
   * any slug the list does not offer.
   */
  lemma HeadingName(country: string)
    ensures forall i :: 0 <= i < |Countries| && country == Countries[i].value ==>
      DisplayName(LabelMap(Countries), country) == Countries[i].caption
    ensures (forall i :: 0 <= i < |Countries| ==> country != Countries[i].value) ==>
      DisplayName(LabelMap(Countries), country) == "Unknown"
  {
    CountryMapContents();
    if forall i :: 0 <= i < |Countries| ==> country != Countries[i].value {
      assert country != Countries[0].value && country != Countries[1].value;
      assert country != Countries[2].value && country != Countries[3].value;
    }
  }
}
