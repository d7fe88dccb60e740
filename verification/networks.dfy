/** The college-network filter of main.py: an SSID is in scope when one of the
    configured keywords occurs in it, both sides lower-cased. The same
    any-keyword test, on already lower-case keywords, selects files in the
    installer and the uninstaller. */
module Networks {
  import opened Common
  import opened Text

  /** `WIFI_KEYWORDS` of main.py. */
  const WifiKeywords: seq<string> := ["AP", "ABB", "HOSTEL", "LRC", "JIIT"]

  /** Python truthiness of an SSID reading: present and non-empty, i.e. connected. */
  predicate Connected(ssid: Option<string>) {
    ssid.Some? && ssid.value != ""
  }

  /** `any(k in name for k in keys)`, evaluated left to right. */
  function MatchesAny(name: string, keys: seq<string>): (r: bool)
    ensures r <==> ContainsAny(name, keys)
    decreases |keys|
  {
    if |keys| == 0 then
      false
    else if Contains(name, keys[0]) then
      true
    else
      var rest := MatchesAny(name, keys[1..]);
      assert forall k :: k in keys <==> k == keys[0] || k in keys[1..];
      rest
  }

  /** The filter of main.py: some keyword, lower-cased, occurs in the
      lower-cased SSID. */
  function IsCollegeNetwork(ssid: string): (r: bool)
    ensures r <==> exists k :: k in WifiKeywords && Contains(Lower(ssid), Lower(k))
  {
    LowerKeywordsMatch(Lower(ssid), WifiKeywords);
    MatchesAny(Lower(ssid), LowerAll(WifiKeywords))
  }

  /** Matching against the lower-cased keyword list is matching against each
      keyword lower-cased. */
  lemma LowerKeywordsMatch(name: string, keys: seq<string>)
    ensures ContainsAny(name, LowerAll(keys)) <==> exists k :: k in keys && Contains(name, Lower(k))
  {
    var lowered := LowerAll(keys);
    forall k | k in keys && Contains(name, Lower(k))
      ensures ContainsAny(name, lowered)
    {
      var i :| 0 <= i < |keys| && keys[i] == k;
      assert lowered[i] == Lower(k);
    }
    if ContainsAny(name, lowered) {
      var k :| k in lowered && Contains(name, k);
      var i :| 0 <= i < |lowered| && lowered[i] == k;
      assert keys[i] in keys;
    }
  }

  /** The filter ignores case: an SSID and its lower-case form are judged alike. */
  lemma CollegeNetworkIgnoresCase(ssid: string)
    ensures IsCollegeNetwork(Lower(ssid)) == IsCollegeNetwork(ssid)
  {
    LowerIdempotent(ssid);
  }

  /** Any keyword embedded anywhere, spelled in any case, puts the network
      in scope. */
  lemma KeywordInsideNameMatches(before: string, w: string, after: string, k: string)
    requires k in WifiKeywords && Lower(w) == Lower(k)
    ensures IsCollegeNetwork(before + w + after)
  {
    var name := before + w + after;
    LowerAppend(before, w + after);
    LowerAppend(w, after);
    assert Lower(name) == Lower(before) + Lower(k) + Lower(after);
    assert OccursAt(Lower(name), Lower(k), |before|);
  }

  // The literal is a parameter pinned by `requires`, so the proof works on one named term instead of unfolding the literal in every clause.
  /** A hostel network is in scope. */
  lemma HostelNetworkMatches(ssid: string)
    requires ssid == "JIIT-Hostel-5G"
    ensures IsCollegeNetwork(ssid)
  {
    assert Lower(ssid) == "jiit-hostel-5g";
    assert "JIIT" in WifiKeywords && Lower("JIIT") == "jiit";
    assert OccursAt(Lower(ssid), "jiit", 0);
  }

  // The literal is a parameter pinned by `requires`, so the proof works on one named term instead of unfolding the literal in every clause.
  /** A home network whose name holds none of the keywords is out of scope. */
  lemma HomeNetworkIgnored(ssid: string)
    requires ssid == "homewifi"
    ensures !IsCollegeNetwork(ssid)
  {
    var s := Lower(ssid);
    assert s == "homewifi";
    HomeNameHasNoKeyword(s);
    LowerKeywords();
    assert !MatchesAny(s, LowerAll(WifiKeywords));
  }

  lemma HomeNameHasNoKeyword(s: string)
    requires s == "homewifi"
    ensures !Contains(s, "ap") && !Contains(s, "abb") && !Contains(s, "lrc")
    ensures !Contains(s, "jiit") && !Contains(s, "hostel")
  {
    FirstCharAbsent(s, "ap");
    FirstCharAbsent(s, "abb");
    FirstCharAbsent(s, "lrc");
    FirstCharAbsent(s, "jiit");
    assert "hostel" == "ho" + "stel";
    FirstCharAbsent(s, "stel");
    if Contains(s, "hostel") {
      ContainsSuffixOfNeedle(s, "ho", "stel");
    }
  }

  lemma LowerKeywords()
    ensures LowerAll(WifiKeywords) == ["ap", "abb", "hostel", "lrc", "jiit"]
  {
    assert Lower("AP") == "ap";
    assert Lower("ABB") == "abb";
    assert Lower("HOSTEL") == "hostel";
    assert Lower("LRC") == "lrc";
    assert Lower("JIIT") == "jiit";
  }
}
