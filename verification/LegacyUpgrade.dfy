/** The two stored formats of a section (app/applicant/fields.py, upgrade_legacy_section; app/applicant/review.py, _dual_format). */
module LegacyUpgrade {
  import opened Base

  datatype Json =
    | Null
    | Bool(b: bool)
    | Text(s: string)
    | Number(n: int)
    | Date(day: int)
    | List(items: seq<Json>)
    | Object(fields: map<string, Json>)

  type Values = map<string, Json>

  datatype Section = Identity | Employment | Qualifications | Publications | Contribution

  /** `str(value).strip()` folded to lower case, or turned to upper case, for any stored value. */
  datatype Folding = Folding(lower: Json -> string, upper: Json -> string)

  function Get(v: Values, key: string): Json {
    if key in v then v[key] else Null
  }

  predicate Falsy(j: Json) {
    j == Null || j == Bool(false) || j == Text("") || j == Number(0) || j == List([]) || j == Object(map[])
  }

  function Or(j: Json, otherwise: Json): Json {
    if Falsy(j) then otherwise else j
  }

  const YES: set<string> := {"true", "yes", "employed", "current", "currently employed"}
  const NO: set<string> := {
    "false", "no", "not employed", "unemployed", "none", "future", "future appointment", "not yet", "pending"}

  function Degree(degreeType: string, date: Json): Json {
    Object(map["degreeType" := Text(degreeType), "conferralDate" := date])
  }

  function LegacyDegrees(category: string, date: Json): seq<Json> {
    if category == "BSC" then [Degree("BSc", Null)]
    else if category == "MA" then [Degree("MA", Null)]
    else if category == "MD" then [Degree("MD", Null)]
    else if category == "PHD" then [Degree("PhD", date)]
    else if category == "MD_PHD" then [Degree("MD", Null), Degree("PhD", date)]
    else []
  }

  function EmploymentStatus(fold: Folding, current: Json): Json {
    if current.Bool? || current.Null? then current
    else if fold.lower(current) in YES then Bool(true)
    else if fold.lower(current) in NO then Bool(false)
    else Null
  }

  function Upgraded(fold: Folding, section: Section, v: Values): Values {
    match section
    case Identity =>
      (if Get(v, "gender") == Text("Self-describe") then v["gender" := Null] else v) - {"genderSelfDescription"}
    case Employment =>
      var status := Get(v, "postdoctoralEmploymentStatus");
      if status.Bool? || status.Null? then v else v["postdoctoralEmploymentStatus" := EmploymentStatus(fold, status)]
    case Qualifications =>
      (if "degrees" in v then v
       else v["degrees" := List(LegacyDegrees(fold.upper(Or(Get(v, "degreeCategory"), Text(""))), Or(Get(v, "phdDate"), Null)))])
      - {"degreeCategory", "phdDate"}
    case Publications =>
      var profile := Get(v, "googleScholarProfileUrl");
      var known :=
        if "hasGoogleScholarProfile" in v then v
        else v["hasGoogleScholarProfile" :=
          if profile.Text? && fold.lower(profile) != "" then Bool(true)
          else if Get(v, "noGoogleScholarProfile") == Bool(true) then Bool(false)
          else Null];
      (if "publications" in known then known else known["publications" := List([])])
      - {"noGoogleScholarProfile", "googleScholarCitationTotal"}
    case Contribution => v
  }

  predicate HasType(row: Json, degreeType: string) {
    row.Object? && Get(row.fields, "degreeType") == Text(degreeType)
  }

  predicate Holds(rows: seq<Json>, degreeType: string) {
    exists i :: 0 <= i < |rows| && HasType(rows[i], degreeType)
  }

  /** The date of the first PhD among the degrees. */
  function PhdDate(rows: seq<Json>): Json {
    if rows == [] then Null
    else if HasType(rows[0], "PhD") then Get(rows[0].fields, "conferralDate")
    else PhdDate(rows[1..])
  }

  function Category(rows: seq<Json>): Json {
    if Holds(rows, "MD") && Holds(rows, "PhD") then Text("MD_PHD")
    else if Holds(rows, "PhD") then Text("PHD")
    else if Holds(rows, "MD") then Text("MD")
    else Null
  }

  /** What is stored so that the previous release can still read it; `citations` is the total already stored, if any. */
  function DualFormat(section: Section, v: Values, citations: Option<Json>): Values {
    match section
    case Identity => v["genderSelfDescription" := Null]
    case Qualifications =>
      var degrees := Get(v, "degrees");
      var rows := if degrees.List? then degrees.items else [];
      v["degreeCategory" := Category(rows)]["phdDate" := PhdDate(rows)]
    case Publications =>
      var has := Get(v, "hasGoogleScholarProfile");
      var w := v["noGoogleScholarProfile" := if has.Bool? then Bool(!has.b) else Null];
      if citations.Some? then w["googleScholarCitationTotal" := citations.value] else w
    case _ => v
  }

  // ------------------------------------------------------------------
  // Laws
  // ------------------------------------------------------------------

  lemma UpgradeIsIdempotent(fold: Folding, section: Section, v: Values)
    ensures Upgraded(fold, section, Upgraded(fold, section, v)) == Upgraded(fold, section, v)
  {
    var once := Upgraded(fold, section, v);
    assert section.Publications? ==> "hasGoogleScholarProfile" in once && "publications" in once;
  }

  /** The fields a section's upgrade reads or changes. */
  function Footprint(section: Section): set<string> {
    match section
    case Identity => {"gender", "genderSelfDescription"}
    case Employment => {"postdoctoralEmploymentStatus"}
    case Qualifications => {"degrees", "degreeCategory", "phdDate"}
    case Publications => {
      "hasGoogleScholarProfile", "publications", "noGoogleScholarProfile", "googleScholarCitationTotal",
      "googleScholarProfileUrl"}
    case Contribution => {}
  }

  ghost predicate AgreeOn(v: Values, w: Values, keys: set<string>) {
    forall k :: k in keys ==> (k in v <==> k in w) && (k in v ==> v[k] == w[k])
  }

  lemma UpgradeIsLocal(fold: Folding, section: Section, v: Values, k: string)
    requires k !in Footprint(section)
    ensures AgreeOn(v, Upgraded(fold, section, v), {k})
  {
  }

  lemma UpgradeReadsFootprint(fold: Folding, section: Section, v: Values, w: Values)
    requires AgreeOn(v, w, Footprint(section))
    ensures AgreeOn(Upgraded(fold, section, v), Upgraded(fold, section, w), Footprint(section))
  {
  }

  /** The sections of an applicant can be upgraded in any order. */
  lemma UpgradesCommute(fold: Folding, a: Section, b: Section, v: Values)
    ensures Upgraded(fold, a, Upgraded(fold, b, v)) == Upgraded(fold, b, Upgraded(fold, a, v))
  {
    if a != b {
      var x, y := Upgraded(fold, a, Upgraded(fold, b, v)), Upgraded(fold, b, Upgraded(fold, a, v));
      FootprintsAreDisjoint(a, b);
      forall k ensures AgreeOn(x, y, {k}) { UpgradesCommuteAt(fold, a, b, v, k); }
      SameEverywhere(x, y);
    }
  }

  lemma FootprintsAreDisjoint(a: Section, b: Section)
    requires a != b
    ensures Footprint(a) !! Footprint(b)
  {
  }

  lemma SameEverywhere(x: Values, y: Values)
    requires forall k :: AgreeOn(x, y, {k})
    ensures x == y
  {
    forall k ensures (k in x <==> k in y) && (k in x ==> x[k] == y[k]) { assert AgreeOn(x, y, {k}); }
  }

  lemma UpgradesCommuteAt(fold: Folding, a: Section, b: Section, v: Values, k: string)
    requires Footprint(a) !! Footprint(b)
    ensures AgreeOn(Upgraded(fold, a, Upgraded(fold, b, v)), Upgraded(fold, b, Upgraded(fold, a, v)), {k})
  {
    var va, vb := Upgraded(fold, a, v), Upgraded(fold, b, v);
    forall j | j in Footprint(a) ensures AgreeOn(v, vb, {j}) { UpgradeIsLocal(fold, b, v, j); }
    forall j | j in Footprint(b) ensures AgreeOn(v, va, {j}) { UpgradeIsLocal(fold, a, v, j); }
    assert AgreeOn(v, vb, Footprint(a)) by { assert forall j :: j in Footprint(a) ==> AgreeOn(v, vb, {j}); }
    assert AgreeOn(v, va, Footprint(b)) by { assert forall j :: j in Footprint(b) ==> AgreeOn(v, va, {j}); }
    UpgradeReadsFootprint(fold, a, v, vb);
    UpgradeReadsFootprint(fold, b, v, va);
    if k !in Footprint(a) { UpgradeIsLocal(fold, a, vb, k); UpgradeIsLocal(fold, a, v, k); }
    if k !in Footprint(b) { UpgradeIsLocal(fold, b, va, k); UpgradeIsLocal(fold, b, v, k); }
  }

  /** Fields that only the previous release knows; validation admits none of them, nor the withdrawn gender choice. */
  predicate Current(v: Values) {
    && v.Keys !! {"genderSelfDescription", "degreeCategory", "phdDate", "noGoogleScholarProfile", "googleScholarCitationTotal"}
    && Get(v, "gender") != Text("Self-describe")
    && (Get(v, "postdoctoralEmploymentStatus").Bool? || Get(v, "postdoctoralEmploymentStatus").Null?)
  }

  /** Current values survive storage in both formats exactly if the fields that an upgrade would supply are present. */
  lemma RoundTripIff(fold: Folding, section: Section, v: Values, citations: Option<Json>)
    requires Current(v)
    ensures Upgraded(fold, section, DualFormat(section, v, citations)) == v <==>
      && (section.Qualifications? ==> "degrees" in v)
      && (section.Publications? ==> "hasGoogleScholarProfile" in v && "publications" in v)
  {
    var back := Upgraded(fold, section, DualFormat(section, v, citations));
    assert section.Qualifications? ==> "degrees" in back;
    assert section.Publications? ==> "hasGoogleScholarProfile" in back && "publications" in back;
  }

  /** A category as the upgrade reads it, whatever is stored. */
  function CategoryRead(fold: Folding, v: Values): string {
    fold.upper(Or(Get(v, "degreeCategory"), Text("")))
  }

  /**
   * A record without a list of degrees comes back from upgrade and storage with the upper-case category of a doctorate or
   * MD, or none, and with the date of a PhD alone. So it is kept exactly if its category is spelled like that and its date,
   * if it has one, is that of a PhD; BSc and MA are forgotten, and "PhD" comes back as "PHD".
   */
  lemma LegacyRecordKeptIff(fold: Folding, v: Values, citations: Option<Json>)
    requires "degrees" !in v
    ensures var stored := DualFormat(Qualifications, Upgraded(fold, Qualifications, v), citations);
            var category, date, read := Get(v, "degreeCategory"), Get(v, "phdDate"), CategoryRead(fold, v);
      && Get(stored, "degreeCategory") == (if read in {"MD", "PHD", "MD_PHD"} then Text(read) else Null)
      && Get(stored, "phdDate") == (if read in {"PHD", "MD_PHD"} then Or(date, Null) else Null)
      && (Get(stored, "degreeCategory") == category && Get(stored, "phdDate") == date <==>
            && category == (if read in {"MD", "PHD", "MD_PHD"} then Text(read) else Null)
            && (date == Null || (read in {"PHD", "MD_PHD"} && !Falsy(date))))
  {
    var date, read := Or(Get(v, "phdDate"), Null), CategoryRead(fold, v);
    var rows := LegacyDegrees(read, date);
    assert Get(Upgraded(fold, Qualifications, v), "degrees") == List(rows);
    if read == "MD_PHD" {
      assert HasType(rows[0], "MD") && HasType(rows[1], "PhD") && !HasType(rows[0], "PhD");
      assert PhdDate(rows) == PhdDate(rows[1..]) == date;
    } else if read == "PHD" {
      assert HasType(rows[0], "PhD") && PhdDate(rows) == date;
    } else {
      assert read == "MD" ==> HasType(rows[0], "MD");
      assert PhdDate(rows) == Null;
    }
  }

  /** A record of a bachelor comes out of upgrade and storage without its category. */
  lemma BachelorIsForgotten(fold: Folding, citations: Option<Json>)
    requires fold.upper(Text("BSC")) == "BSC"
    ensures var stored := DualFormat(Qualifications, Upgraded(fold, Qualifications, map["degreeCategory" := Text("BSC")]), citations);
            Get(stored, "degreeCategory") == Null
  {
    var rows := LegacyDegrees("BSC", Null);
    assert Get(Upgraded(fold, Qualifications, map["degreeCategory" := Text("BSC")]), "degrees") == List(rows);
    assert |rows| == 1 && !HasType(rows[0], "MD") && !HasType(rows[0], "PhD");
  }

  /** The words for yes and no become truth values, truth values and absence stay, and anything else becomes absent. */
  lemma EmploymentWordsAreRead(fold: Folding, v: Values, word: string)
    requires var status := Get(v, "postdoctoralEmploymentStatus"); !status.Bool? && !status.Null? && fold.lower(status) == word
    ensures var status := Get(Upgraded(fold, Employment, v), "postdoctoralEmploymentStatus");
      && (status == Bool(true) <==> word == "true" || word == "yes" || word == "employed" || word == "current" || word == "currently employed")
      && (status == Bool(false) <==>
            || word == "false" || word == "no" || word == "not employed" || word == "unemployed" || word == "none"
            || word == "future" || word == "future appointment" || word == "not yet" || word == "pending")
      && (status.Bool? || status.Null?)
  {
    assert YES !! NO;
  }

  /** A profile address says that there is a profile; failing that, the old denial says that there is none. */
  lemma ProfileIsInferred(fold: Folding, v: Values)
    requires "hasGoogleScholarProfile" !in v
    ensures var has, url := Get(Upgraded(fold, Publications, v), "hasGoogleScholarProfile"), Get(v, "googleScholarProfileUrl");
      && (has == Bool(true) <==> url.Text? && fold.lower(url) != "")
      && (has == Bool(false) <==> !(url.Text? && fold.lower(url) != "") && Get(v, "noGoogleScholarProfile") == Bool(true))
  {
  }

  /** A self-described gender becomes absent, any other stays, and the description goes. */
  lemma SelfDescriptionIsDropped(fold: Folding, v: Values)
    ensures var w := Upgraded(fold, Identity, v);
      && "genderSelfDescription" !in w
      && Get(w, "gender") == (if Get(v, "gender") == Text("Self-describe") then Null else Get(v, "gender"))
  {
  }

  /** The previous release reads the denial of a profile, and the citation total that was stored before. */
  lemma ProfileIsDenied(v: Values, citations: Option<Json>)
    ensures var w, has := DualFormat(Publications, v, citations), Get(v, "hasGoogleScholarProfile");
      && (Get(w, "noGoogleScholarProfile") == Bool(true) <==> has == Bool(false))
      && (Get(w, "noGoogleScholarProfile") == Bool(false) <==> has == Bool(true))
      && (citations.Some? ==> Get(w, "googleScholarCitationTotal") == citations.value)
      && Get(w, "hasGoogleScholarProfile") == has
  {
  }
}
