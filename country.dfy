/**
 * Country inference for a journal row: an explicit location country wins, then a US
 * state/territory code in the state field, then a US code among the words of the address.
 */
module Country {
  import opened Text

  /** The 50 states, DC, and the territories PR, GU and VI. */
  const US_STATES: set<string> := {
    "AL", "AK", "AZ", "AR", "CA", "CO", "CT", "DC", "DE", "FL", "GA", "HI", "ID", "IL",
    "IN", "IA", "KS", "KY", "LA", "MA", "MD", "ME", "MI", "MN", "MO", "MS", "MT",
    "NC", "ND", "NE", "NH", "NJ", "NM", "NV", "NY", "OH", "OK", "OR", "PA", "RI", "SC",
    "SD", "TN", "TX", "UT", "VA", "VT", "WA", "WI", "WV", "WY", "PR", "GU", "VI"
  }

  /** Upper-cased spellings of the United States that normalise to "USA". */
  const US_SPELLINGS: set<string> := {"US", "USA", "U.S.", "UNITED STATES", "UNITED STATES OF AMERICA"}

  /** The end of the run of letters that starts at `i`. */
  function RunEnd(s: string, i: nat): (j: nat)
    requires i <= |s|
    ensures i <= j <= |s|
    ensures forall k :: i <= k < j ==> IsLetter(s[k])
    ensures j == |s| || !IsLetter(s[j])
    decreases |s| - i
  {
    if i == |s| || !IsLetter(s[i]) then i else RunEnd(s, i + 1)
  }

  /** The non-empty pieces `re.split(r"[^A-Za-z]+", s[i..])` yields. */
  function TokensFrom(s: string, i: nat): seq<string>
    requires i <= |s|
    decreases |s| - i
  {
    if i == |s| then []
    else if !IsLetter(s[i]) then TokensFrom(s, i + 1)
    else var j := RunEnd(s, i); [s[i..j]] + TokensFrom(s, j)
  }

  /** `[t for t in re.split(r"[^A-Za-z]+", s) if t]`. */
  function Tokens(s: string): seq<string> {
    TokensFrom(s, 0)
  }

  /** `s[a..b]` is a maximal run of letters: a word of `s`. */
  ghost predicate IsWord(s: string, a: int, b: int) {
    && 0 <= a < b <= |s|
    && (a == 0 || !IsLetter(s[a - 1]))
    && (b == |s| || !IsLetter(s[b]))
    && forall k :: a <= k < b ==> IsLetter(s[k])
  }

  /** The tokens from a word boundary on are exactly the words that start there or later. */
  lemma {:induction false} TokensFromAreWords(s: string, i: nat, t: string)
    requires i <= |s|
    requires !(0 < i < |s| && IsLetter(s[i - 1]) && IsLetter(s[i]))
    ensures t in TokensFrom(s, i) <==> exists a, b :: i <= a && IsWord(s, a, b) && t == s[a..b]
    decreases |s| - i
  {
    if i == |s| {
      assert forall a, b :: i <= a && IsWord(s, a, b) ==> false;
    } else if !IsLetter(s[i]) {
      TokensFromAreWords(s, i + 1, t);
      assert forall a, b :: IsWord(s, a, b) ==> a != i;
    } else {
      var j := RunEnd(s, i);
      TokensFromAreWords(s, j, t);
      assert IsWord(s, i, j);
      forall a, b | i <= a && IsWord(s, a, b)
        ensures (a == i && b == j) || j <= a
      {
        assert forall k :: i <= k < j ==> IsLetter(s[k]);
      }
    }
  }

  /** A token of `s` is a US code, spelled in upper case. */
  predicate HasStateToken(s: string) {
    exists t | t in Tokens(s) :: t in US_STATES
  }

  /** `decide_country(address, state, loc_country)`. */
  function DecideCountry(address: string, state: string, locCountry: string): (r: string)
    ensures r == "USA" || r == "" || r == Trim(locCountry)
  {
    var c := Trim(locCountry);
    if c != "" then
      if Upper(c) in US_SPELLINGS then "USA" else c
    else if Upper(Trim(state)) in US_STATES then "USA"
    else if HasStateToken(Upper(address)) then "USA"
    else ""
  }

  /**
   * The four branches in their priority order. A non-empty trimmed location country alone
   * decides; otherwise the state code; otherwise "USA" exactly when some word of the
   * upper-cased address is a US code; otherwise the empty string.
   */
  lemma DecideCountryCases(address: string, state: string, locCountry: string)
    ensures var c := Trim(locCountry);
      var r := DecideCountry(address, state, locCountry);
      && (c != "" ==> r == (if Upper(c) in US_SPELLINGS then "USA" else c))
      && (c == "" && Upper(Trim(state)) in US_STATES ==> r == "USA")
      && (c == "" && Upper(Trim(state)) !in US_STATES ==>
            (r == "USA" <==> exists a, b :: IsWord(Upper(address), a, b) && Upper(address)[a..b] in US_STATES))
      && (c == "" && Upper(Trim(state)) !in US_STATES ==> (r == "USA" || r == ""))
  {
    StateTokenIsWord(Upper(address));
  }

  /** Some token of `u` is a US code exactly when some word of `u` is. */
  lemma StateTokenIsWord(u: string)
    ensures HasStateToken(u) <==> exists a, b :: IsWord(u, a, b) && u[a..b] in US_STATES
  {
    forall t ensures t in Tokens(u) <==> exists a, b :: 0 <= a && IsWord(u, a, b) && t == u[a..b] {
      TokensFromAreWords(u, 0, t);
    }
  }

  /** Branch C: "TX" is a word of the upper-cased address. */
  lemma AddressExample()
    ensures DecideCountry("123 Main St, Austin TX", "", "") == "USA"
  {
    var u := Upper("123 Main St, Austin TX");
    assert u == "123 MAIN ST, AUSTIN TX";
    assert IsWord(u, 20, 22) && u[20..22] == "TX";
    DecideCountryCases("123 Main St, Austin TX", "", "");
  }

  /** Branch B: the state code decides when there is no location country. */
  lemma StateExample()
    ensures DecideCountry("", "CA", "") == "USA"
  {
    TrimKeeps("CA");
    UpperCa();
    StateDecides("", "CA", "");
  }

  lemma UpperCa()
    ensures Upper("CA") in US_STATES
  {
    assert Upper("CA") == "CA";
  }

  /** With no location country, a US code in the state field decides "USA". */
  lemma StateDecides(address: string, state: string, locCountry: string)
    requires Trim(locCountry) == "" && Upper(Trim(state)) in US_STATES
    ensures DecideCountry(address, state, locCountry) == "USA"
  {
  }

  /** A non-empty trimmed location country alone decides the result. */
  lemma LocCountryDecides(address: string, state: string, locCountry: string)
    requires Trim(locCountry) != ""
    ensures DecideCountry(address, state, locCountry)
      == if Upper(Trim(locCountry)) in US_SPELLINGS then "USA" else Trim(locCountry)
  {
  }

  /** Branch A: a country other than the United States passes through unchanged. */
  lemma ForeignCountryExample()
    ensures DecideCountry("", "", "Canada") == "Canada"
  {
    TrimKeeps("Canada");
    UpperCanada();
  }

  lemma UpperCanada()
    ensures Upper("Canada") !in US_SPELLINGS
  {
    assert Upper("Canada") == "CANADA";
  }

  /** Branch A: a spelling of the United States is normalised to "USA". */
  lemma UsSpellingExample()
    ensures DecideCountry("", "", "u.s.") == "USA"
  {
    TrimKeeps("u.s.");
    UpperUs();
    LocCountryDecides("", "", "u.s.");
  }

  lemma UpperUs()
    ensures Upper("u.s.") in US_SPELLINGS
  {
    var u := Upper("u.s.");
    assert u == "U.S." by {
      assert u[0] == 'U' && u[1] == '.' && u[2] == 'S' && u[3] == '.';
    }
  }
}
