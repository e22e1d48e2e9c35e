/**
 * Which alerts the notifier reports: the table of dangerous categories
 * (`WARN_ALARMS`) and the optional search term matched against the location.
 */
module Classify {
  import opened PyStr

  /** `WARN_ALARMS`, in the order of the table, with its two spellings of
      "POSITIVE ALARM". Four categories named next to them are left out:
      "FIRE UNDER CONTROL", "FALSE ALARM", "FIRE OUT" and "NEGATIVE ALARM". */
  const WarnAlarms: seq<string> := [
    "2ND ALARM",
    "POSSITIVE ALARM",
    "GAS STOVE FIRE",
    "4TH ALARM",
    "ELECTRICAL FIRE",
    "VEHICULAR FIRE",
    "RUBBISH FIRE",
    "CEILING FIRE",
    "3RD ALARM",
    "VISIBLE SMOKE",
    "POSITIVE ALARM",
    "POST FIRE",
    "1ST ALARM",
    "KITCHEN FIRE",
    "FOR VERIFICATION"
  ]

  /** `alert_type in WARN_ALARMS`: an exact, case-sensitive comparison with every entry. */
  predicate IsDangerous(alertType: string) {
    alertType in WarnAlarms
  }

  /** The categories the table leaves out never raise a notification, nor
      does "SECOND ALARM" spelled out (the table has "2ND ALARM"). */
  lemma {:induction false} NotDangerous(alertType: string)
    requires alertType in ["FIRE UNDER CONTROL", "FALSE ALARM", "FIRE OUT", "NEGATIVE ALARM", "SECOND ALARM"]
    ensures !IsDangerous(alertType)
  {
  }

  /** Every entry of the table is upper case. */
  lemma {:induction false} WarnAlarmsUpper(k: nat)
    requires k < |WarnAlarms|
    ensures IsUpperText(WarnAlarms[k])
  {
    if k < 8 {
      FirstAlarmsUpper(k);
    } else {
      LastAlarmsUpper(k);
    }
  }

  lemma {:induction false} FirstAlarmsUpper(k: nat)
    requires k < 8
    ensures IsUpperText(WarnAlarms[k])
  {
  }

  lemma {:induction false} LastAlarmsUpper(k: nat)
    requires 8 <= k < |WarnAlarms|
    ensures IsUpperText(WarnAlarms[k])
  {
  }

  /** The page's own spelling of a category does not matter: a category
      equal to an entry of the table up to case is dangerous once upper-cased,
      as every stored category is. */
  lemma {:induction false} DangerousUpToCase(alertType: string, k: nat)
    requires k < |WarnAlarms| && Lower(alertType) == Lower(WarnAlarms[k])
    ensures IsDangerous(Upper(alertType))
  {
    var w := WarnAlarms[k];
    WarnAlarmsUpper(k);
    assert |alertType| == |w| by {
      assert |Lower(alertType)| == |Lower(w)|;
    }
    forall i | 0 <= i < |w| ensures Upper(alertType)[i] == w[i] {
      assert LowerChar(alertType[i]) == LowerChar(w[i]) by {
        assert Lower(alertType)[i] == Lower(w)[i];
      }
      CaseFolding(alertType[i]);
      CaseFolding(w[i]);
    }
    assert Upper(alertType) == w;
  }

  /** The search term test of the main loop: no term, or the term occurs in
      the location when both are in lower case. */
  predicate MatchesSearchTerm(searchTerm: string, alertInfo: string) {
    searchTerm == [] || Contains(Lower(alertInfo), Lower(searchTerm))
  }

  /** A term that occurs verbatim in the location matches it. */
  lemma {:induction false} LiteralMatches(searchTerm: string, alertInfo: string)
    requires Contains(alertInfo, searchTerm)
    ensures MatchesSearchTerm(searchTerm, alertInfo)
  {
    var i :| 0 <= i <= |alertInfo| && Occurs(alertInfo, searchTerm, i);
    var n := |searchTerm|;
    forall j | 0 <= j < n ensures Lower(alertInfo)[i..i + n][j] == Lower(searchTerm)[j] {
      assert alertInfo[i + j] == alertInfo[i..i + n][j];
    }
    assert Occurs(Lower(alertInfo), Lower(searchTerm), i);
  }

  /** The test ignores case on both sides: the stored location is upper case,
      and the term may be written in any case. */
  lemma {:induction false} SearchIgnoresCase(searchTerm: string, alertInfo: string)
    ensures MatchesSearchTerm(searchTerm, Upper(alertInfo)) == MatchesSearchTerm(searchTerm, alertInfo)
    ensures MatchesSearchTerm(Upper(searchTerm), alertInfo) == MatchesSearchTerm(searchTerm, alertInfo)
  {
    LowerOfUpper(alertInfo);
    LowerOfUpper(searchTerm);
  }

  /** The term is one substring, not a list: a comma in it must itself occur in the location. */
  lemma {:induction false} CommaIsLiteral(searchTerm: string, alertInfo: string)
    requires ',' in searchTerm && ',' !in alertInfo
    ensures !MatchesSearchTerm(searchTerm, alertInfo)
  {
    if MatchesSearchTerm(searchTerm, alertInfo) {
      var s := Lower(alertInfo);
      var i :| 0 <= i <= |s| && Occurs(s, Lower(searchTerm), i);
      var k :| 0 <= k < |searchTerm| && searchTerm[k] == ',';
      assert Lower(searchTerm)[k] == ',';
      OccursChars(s, Lower(searchTerm), i, ',');
    }
  }
}
