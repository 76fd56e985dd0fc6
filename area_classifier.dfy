/** Classification of a geographic area name into the hierarchy
    world > continent > subregion > country, and the name of an area's parent. */
module AreaClassifier {
  import opened Wrappers
  import opened Text
  import opened Config

  /** `classify_area`: the stripped name is looked up in the world, continent and
      subregion lists in that order; an unknown name is a country. Never fails. */
  function ClassifyArea(areaName: string): (r: AreaType)
    ensures r == World <==> Strip(areaName) in WorldNames
    ensures r == Continent <==> Strip(areaName) in ContinentNames
    ensures r == Subregion <==> Strip(areaName) in SubregionNames
    ensures r == Country <==>
      Strip(areaName) !in WorldNames && Strip(areaName) !in ContinentNames && Strip(areaName) !in SubregionNames
  {
    AreaListsDisjoint();
    SearchAreaMapping(Strip(areaName));
    match FirstMatch(AreaTypeMapping, Strip(areaName))
    case Some(areaType) => areaType
    case None => Country
  }

  /** The search over AREA_TYPE_MAPPING, entry by entry. */
  lemma SearchAreaMapping(name: string)
    ensures FirstMatch(AreaTypeMapping, name) ==
      if name in WorldNames then Some(World)
      else if name in ContinentNames then Some(Continent)
      else if name in SubregionNames then Some(Subregion)
      else None
  {
    var m := AreaTypeMapping;
    assert m[1..][1..][1..] == [];
    assert m[0] == (World, WorldNames) && m[1..][0] == (Continent, ContinentNames);
    assert m[1..][1..][0] == (Subregion, SubregionNames);
  }

  /** `get_parent_area`: the parent's name for an area of the given type, which
      the source accepts as any string. The name is NOT stripped here. */
  function GetParentArea(areaName: string, areaType: string): (r: Option<string>)
    ensures r.Some? ==> areaType in {"continent", "subregion"}
    ensures areaType == "subregion" ==> (r.Some? <==> areaName in SubregionToContinent)
    ensures areaType == "subregion" && areaName in SubregionToContinent ==> r == Some(SubregionToContinent[areaName])
  {
    if areaType == "world" then None
    else if areaType == "continent" then Some("World")
    else if areaType == "subregion" then Get(SubregionToContinent, areaName)
    else None
  }

  /** Any name outside the three lists, e.g. "Atlantis", is a country. */
  lemma UnknownAreaIsCountry()
    ensures ClassifyArea("Atlantis") == Country
  {
    AtlantisIsUnlisted();
    StripTrimmed("Atlantis");
  }

  lemma AtlantisIsUnlisted()
    ensures IsTrimmed("Atlantis")
    ensures "Atlantis" !in WorldNames && "Atlantis" !in ContinentNames && "Atlantis" !in SubregionNames
  {
  }

  /** Whitespace around a name is ignored by the classifier. */
  lemma ClassifyAreaIgnoresPadding(p: string, name: string, q: string)
    requires AllSpace(p) && AllSpace(q)
    ensures ClassifyArea(p + name + q) == ClassifyArea(name)
  {
    StripIgnoresPadding(p, name, q);
  }

  lemma PaddedContinent()
    ensures ClassifyArea(" Africa ") == ClassifyArea("Africa") == Continent
  {
    PaddedAfricaParts();
    ClassifyAreaIgnoresPadding(" ", "Africa", " ");
    ListedNamesClassify("Africa");
  }

  lemma PaddedAfricaParts()
    ensures " Africa " == " " + "Africa" + " "
    ensures AllSpace(" ") && "Africa" in ContinentNames
  {
  }

  lemma ListedNamesAreTrimmed()
    ensures forall n :: n in WorldNames ==> IsTrimmed(n)
    ensures forall n :: n in ContinentNames ==> IsTrimmed(n)
    ensures forall n :: n in SubregionNames ==> IsTrimmed(n)
  {
    WorldNameTrimmed();
    ContinentNamesTrimmed();
    SubregionNamesTrimmed();
  }

  lemma WorldNameTrimmed()
    ensures forall n :: n in WorldNames ==> IsTrimmed(n)
  {
  }

  lemma ContinentNamesTrimmed()
    ensures forall n :: n in ContinentNames ==> IsTrimmed(n)
  {
  }

  lemma SubregionNamesTrimmed()
    ensures forall n :: n in SubregionNames ==> IsTrimmed(n)
  {
  }

  /** Every listed name classifies as its own list's type. */
  lemma ListedNamesClassify(n: string)
    ensures n in WorldNames ==> ClassifyArea(n) == World
    ensures n in ContinentNames ==> ClassifyArea(n) == Continent
    ensures n in SubregionNames ==> ClassifyArea(n) == Subregion
  {
    ListedNamesAreTrimmed();
    if n in WorldNames || n in ContinentNames || n in SubregionNames {
      StripTrimmed(n);
    }
  }

  lemma WorldIsWorld()
    ensures ClassifyArea("World") == World
  {
    assert "World" in WorldNames;
    ListedNamesClassify("World");
  }

  /** For every exactly spelled name the classifier calls a subregion, the
      parent lookup yields a name the classifier calls a continent. */
  lemma SubregionParentIsContinent(n: string)
    requires IsTrimmed(n) && ClassifyArea(n) == Subregion
    ensures GetParentArea(n, "subregion").Some?
    ensures ClassifyArea(GetParentArea(n, "subregion").value) == Continent
  {
    TrimmedSubregionIsListed(n);
    var c := ListedSubregionParent(n);
    ListedNamesClassify(c);
  }

  lemma TrimmedSubregionIsListed(n: string)
    requires IsTrimmed(n) && ClassifyArea(n) == Subregion
    ensures n in SubregionNames
  {
    StripTrimmed(n);
  }

  lemma ListedSubregionParent(n: string) returns (c: string)
    requires n in SubregionNames
    ensures c == SubregionToContinent[n]
    ensures GetParentArea(n, "subregion") == Some(c) && c in ContinentNames
  {
    SubregionTable();
    c := SubregionToContinent[n];
  }

  /** A continent's parent is "World", which the classifier calls the world. */
  lemma ContinentParentIsWorld(n: string)
    ensures GetParentArea(n, Continent.Name()) == Some("World")
    ensures ClassifyArea(GetParentArea(n, Continent.Name()).value) == World
  {
    assert Continent.Name() == "continent";
    WorldIsWorld();
  }

  /** Only the classifier strips: a padded subregion name is classified, but its
      parent lookup misses. */
  lemma PaddedSubregionHasNoParent()
    ensures ClassifyArea(" Eastern Africa") == Subregion
    ensures GetParentArea(" Eastern Africa", "subregion") == None
  {
    PaddedEasternAfricaClassifies();
    PaddedEasternAfricaParts();
  }

  lemma PaddedEasternAfricaClassifies()
    ensures ClassifyArea(" Eastern Africa") == Subregion
  {
    PaddedEasternAfricaParts();
    ClassifyAreaIgnoresPadding(" ", "Eastern Africa", "");
    ListedNamesClassify("Eastern Africa");
  }

  lemma PaddedEasternAfricaParts()
    ensures " Eastern Africa" == " " + "Eastern Africa" + ""
    ensures AllSpace(" ") && AllSpace("") && "Eastern Africa" in SubregionNames
    ensures " Eastern Africa" !in SubregionToContinent
  {
    assert " Eastern Africa" == " " + "Eastern Africa" + "";
    assert "Eastern Africa" in SubregionNames;
    PaddedNameUnmapped(" Eastern Africa");
  }

  /** A name with leading whitespace is not a key of SUBREGION_TO_CONTINENT. */
  lemma PaddedNameUnmapped(s: string)
    requires s != [] && IsSpace(s[0])
    ensures s !in SubregionToContinent
  {
    SubregionTable();
    SubregionNamesTrimmed();
    assert s !in SubregionNames;
  }
}
