/** Fiduciary.java: a seven-field contact record, filled from one group of
    fiduciary lines either positionally (name and address) or as a phone/fax
    amendment. The value FiduciaryFields is the record's state; the class
    Fiduciary holds it in mutable fields, and each of its methods is proved to
    move that state as the corresponding function says. */
module Fiduciaries {
  import opened Errors
  import opened Text

  const RepresentedBy: string := "represented by"
  const PhonePrefix: string := "phone:"
  const FaxPrefix: string := "fax:"

  datatype FiduciaryFields = FiduciaryFields(
    name: string,
    representedBy: string,
    addrLn1: string,
    addrLn2: string,
    cityStateZip: string,
    phone: string,
    fax: string)

  /** The state the no-argument constructor leaves: every field empty. */
  const Blank: FiduciaryFields := FiduciaryFields("", "", "", "", "", "", "")

  // ---------------------------------------------------------------------------
  // Classification
  // ---------------------------------------------------------------------------

  /** isPhoneFaxGroup: a non-null, non-empty group whose first line, lower-cased,
      starts with "phone:" or "fax:". */
  predicate IsPhoneFaxGroup(groupedInfo: Option<seq<string>>)
    ensures IsPhoneFaxGroup(groupedInfo) <==>
      groupedInfo.Some? && |groupedInfo.value| > 0 &&
      (HasPrefixIgnoringCase(groupedInfo.value[0], PhonePrefix) ||
       HasPrefixIgnoringCase(groupedInfo.value[0], FaxPrefix))
  {
    if groupedInfo.Some? && |groupedInfo.value| > 0 then
      LowerStartsWith(groupedInfo.value[0], PhonePrefix);
      LowerStartsWith(groupedInfo.value[0], FaxPrefix);
      var firstRow := groupedInfo.value[0];
      StartsWith(LowerStr(firstRow), PhonePrefix) || StartsWith(LowerStr(firstRow), FaxPrefix)
    else
      false
  }

  // ---------------------------------------------------------------------------
  // Phone/fax amendment
  // ---------------------------------------------------------------------------

  predicate IsPhoneLine(info: string)
  {
    StartsWith(LowerStr(info), PhonePrefix)
  }

  /** A fax line is one that is not already taken as a phone line. */
  predicate IsFaxLine(info: string)
  {
    !IsPhoneLine(info) && StartsWith(LowerStr(info), FaxPrefix)
  }

  /** One iteration of setPhoneFaxGroupInfo's loop. */
  function PhoneFaxLine(f: FiduciaryFields, info: string): FiduciaryFields
  {
    if IsPhoneLine(info) then f.(phone := Trim(info[|PhonePrefix|..]))
    else if IsFaxLine(info) then f.(fax := Trim(info[|FaxPrefix|..]))
    else f
  }

  /** setPhoneFaxGroupInfo: the lines applied in order; only phone and fax change. */
  function PhoneFaxInfo(f: FiduciaryFields, groupedInfo: seq<string>): (r: FiduciaryFields)
    ensures r.(phone := f.phone, fax := f.fax) == f
  {
    if groupedInfo == [] then f
    else PhoneFaxLine(PhoneFaxInfo(f, groupedInfo[..|groupedInfo| - 1]), groupedInfo[|groupedInfo| - 1])
  }

  /** The index of the last phone line, or -1 when there is none. */
  function LastPhoneLine(groupedInfo: seq<string>): (j: int)
    ensures -1 <= j < |groupedInfo|
    ensures j >= 0 ==> IsPhoneLine(groupedInfo[j])
    ensures forall k :: j < k < |groupedInfo| ==> !IsPhoneLine(groupedInfo[k])
  {
    if groupedInfo == [] then -1
    else if IsPhoneLine(groupedInfo[|groupedInfo| - 1]) then |groupedInfo| - 1
    else LastPhoneLine(groupedInfo[..|groupedInfo| - 1])
  }

  /** The index of the last fax line, or -1 when there is none. */
  function LastFaxLine(groupedInfo: seq<string>): (j: int)
    ensures -1 <= j < |groupedInfo|
    ensures j >= 0 ==> IsFaxLine(groupedInfo[j])
    ensures forall k :: j < k < |groupedInfo| ==> !IsFaxLine(groupedInfo[k])
  {
    if groupedInfo == [] then -1
    else if IsFaxLine(groupedInfo[|groupedInfo| - 1]) then |groupedInfo| - 1
    else LastFaxLine(groupedInfo[..|groupedInfo| - 1])
  }

  /** The last phone line sets the phone number and the last fax line the fax
      number, each as the trimmed text after its prefix; with no such line the
      field keeps its value. */
  lemma {:induction false} PhoneFaxLastWins(f: FiduciaryFields, groupedInfo: seq<string>)
    ensures var j := LastPhoneLine(groupedInfo);
      PhoneFaxInfo(f, groupedInfo).phone ==
        if j < 0 then f.phone else Trim(groupedInfo[j][|PhonePrefix|..])
    ensures var j := LastFaxLine(groupedInfo);
      PhoneFaxInfo(f, groupedInfo).fax ==
        if j < 0 then f.fax else Trim(groupedInfo[j][|FaxPrefix|..])
  {
    if groupedInfo != [] {
      var n := |groupedInfo| - 1;
      var init := groupedInfo[..n];
      PhoneFaxLastWins(f, init);
      var j := LastPhoneLine(init);
      assert j >= 0 ==> init[j] == groupedInfo[j];
      var k := LastFaxLine(init);
      assert k >= 0 ==> init[k] == groupedInfo[k];
    }
  }

  // ---------------------------------------------------------------------------
  // Name and address
  // ---------------------------------------------------------------------------

  /** The name split shared by setAddressGroupInfo (line 0) and setName: at the
      first case-insensitive "represented by", the text before it becomes the
      name and the text after it, untrimmed, the representative; with no match
      the whole line is the name and representedBy keeps its value. */
  function WithNameLine(f: FiduciaryFields, line: string): (r: FiduciaryFields)
    ensures r.(name := f.name, representedBy := f.representedBy) == f
  {
    var pos := IndexOf(LowerStr(line), RepresentedBy);
    if pos > -1 then f.(name := line[..pos], representedBy := line[pos + |RepresentedBy|..])
    else f.(name := line)
  }

  /** With a match, the name, the matched phrase and the representative put
      back together give the line, and the phrase starts right after the name,
      at its first occurrence. */
  lemma NameLineMatched(f: FiduciaryFields, line: string, p: int)
    requires MatchAt(LowerStr(line), RepresentedBy, p)
    ensures var r := WithNameLine(f, line); var n := |r.name|;
      && n + |RepresentedBy| <= |line|
      && r.name + line[n..n + |RepresentedBy|] + r.representedBy == line
      && MatchAt(LowerStr(line), RepresentedBy, n)
      && (forall q :: 0 <= q < n ==> !MatchAt(LowerStr(line), RepresentedBy, q))
  {
    var low := LowerStr(line);
    var pos := IndexOf(low, RepresentedBy);
    assert pos != -1;
    assert |low| == |line|;
    var name, rep := line[..pos], line[pos + |RepresentedBy|..];
    assert WithNameLine(f, line) == f.(name := name, representedBy := rep);
    assert |name| == pos;
    SliceJoin(line, pos, pos + |RepresentedBy|);
  }

  /** Without a match, the name is the whole line and the representative is kept. */
  lemma NameLineUnmatched(f: FiduciaryFields, line: string)
    requires forall p :: !MatchAt(LowerStr(line), RepresentedBy, p)
    ensures WithNameLine(f, line) == f.(name := line)
  {
    assert IndexOf(LowerStr(line), RepresentedBy) == -1;
  }

  /** setAddressGroupInfo: line 0 is the name line, line 1 the first address
      line; a third line is the city/state/zip, unless there is a fourth, in
      which case line 2 is the second address line and line 3 the city/state/zip.
      Phone and fax are not touched. */
  function AddressInfo(f: FiduciaryFields, groupedInfo: seq<string>): FiduciaryFields
  {
    if groupedInfo == [] then f
    else
      var named := WithNameLine(f, groupedInfo[0]);
      var street := if |groupedInfo| > 1 then named.(addrLn1 := groupedInfo[1]) else named;
      if |groupedInfo| > 3 then street.(addrLn2 := groupedInfo[2], cityStateZip := groupedInfo[3])
      else if |groupedInfo| > 2 then street.(cityStateZip := groupedInfo[2])
      else street
  }

  /** Each field of the record after setAddressGroupInfo, by group size. */
  lemma AddressFields(f: FiduciaryFields, groupedInfo: seq<string>)
    ensures var r := AddressInfo(f, groupedInfo);
      && (groupedInfo == [] ==> r == f)
      && r.phone == f.phone && r.fax == f.fax
      && (groupedInfo != [] ==>
            r.name == WithNameLine(f, groupedInfo[0]).name &&
            r.representedBy == WithNameLine(f, groupedInfo[0]).representedBy)
      && r.addrLn1 == (if |groupedInfo| > 1 then groupedInfo[1] else f.addrLn1)
      && r.addrLn2 == (if |groupedInfo| > 3 then groupedInfo[2] else f.addrLn2)
      && r.cityStateZip ==
           (if |groupedInfo| == 3 then groupedInfo[2]
            else if |groupedInfo| > 3 then groupedInfo[3]
            else f.cityStateZip)
  {
  }

  /** Lines after the fourth never reach the record. */
  lemma AddressIgnoresExtraLines(f: FiduciaryFields, groupedInfo: seq<string>)
    requires |groupedInfo| >= 4
    ensures AddressInfo(f, groupedInfo) == AddressInfo(f, groupedInfo[..4])
  {
  }

  /** setGroupInfo: a null or empty group changes nothing; a phone/fax group
      changes only phone and fax; any other group is read positionally and
      leaves phone and fax alone. */
  function GroupInfo(f: FiduciaryFields, groupedInfo: Option<seq<string>>): FiduciaryFields
  {
    match groupedInfo
    case None => f
    case Some(lines) =>
      if lines == [] then f
      else if IsPhoneFaxGroup(groupedInfo) then PhoneFaxInfo(f, lines)
      else AddressInfo(f, lines)
  }

  /** A null or empty group changes nothing, a phone/fax group changes only
      phone and fax, and any other group changes neither. */
  lemma GroupInfoFrame(f: FiduciaryFields, groupedInfo: Option<seq<string>>)
    ensures var r := GroupInfo(f, groupedInfo);
      && (groupedInfo.None? || groupedInfo.value == [] ==> r == f)
      && (IsPhoneFaxGroup(groupedInfo) ==> r.(phone := f.phone, fax := f.fax) == f)
      && (!IsPhoneFaxGroup(groupedInfo) ==> r.phone == f.phone && r.fax == f.fax)
  {
    if groupedInfo.Some? && groupedInfo.value != [] && !IsPhoneFaxGroup(groupedInfo) {
      AddressFields(f, groupedInfo.value);
    }
  }

  lemma RepresentedByIsLower()
    ensures forall i :: 0 <= i < |RepresentedBy| ==> Lower(RepresentedBy[i]) == RepresentedBy[i]
  {
  }

  lemma RepresentedByMatchesAtJoin(who: string, rep: string)
    ensures MatchAt(LowerStr(who + RepresentedBy + rep), RepresentedBy, |who|)
  {
    var line := who + RepresentedBy + rep;
    var low := LowerStr(line);
    var n := |who|;
    RepresentedByIsLower();
    forall i | 0 <= i < |RepresentedBy| ensures low[n + i] == RepresentedBy[i] {
      assert line[n + i] == RepresentedBy[i];
    }
    assert low[n..n + |RepresentedBy|] == RepresentedBy;
  }

  lemma NoMatchInside(who: string, rep: string)
    requires forall i :: 0 <= i < |who| ==> Lower(who[i]) != 'r'
    ensures forall q :: 0 <= q < |who| ==> !MatchAt(LowerStr(who + RepresentedBy + rep), RepresentedBy, q)
  {
    var low := LowerStr(who + RepresentedBy + rep);
    forall q | 0 <= q < |who| ensures !MatchAt(low, RepresentedBy, q) {
      assert low[q] == Lower(who[q]);
      assert RepresentedBy[0] == 'r';
    }
  }

  /** The split inverts joining: when the phrase "represented by" does not
      start, ignoring case, anywhere inside the text before it, the name is that
      text and the representative the text after the phrase, spaces included. */
  lemma NameLineSplit(f: FiduciaryFields, who: string, rep: string)
    requires forall q :: 0 <= q < |who| ==> !MatchAt(LowerStr(who + RepresentedBy + rep), RepresentedBy, q)
    ensures WithNameLine(f, who + RepresentedBy + rep) == f.(name := who, representedBy := rep)
  {
    var line := who + RepresentedBy + rep;
    var n := |who|;
    RepresentedByMatchesAtJoin(who, rep);
    assert IndexOf(LowerStr(line), RepresentedBy) == n;
    assert line[..n] == who;
    assert line[n + |RepresentedBy|..] == rep;
  }

  /** A three-line address group whose first line names a representative: the
      name line is split at the phrase, the second line is the street and the
      third the city/state/zip. */
  lemma ThreeLineGroupWithRepresentative(who: string, rep: string, street: string, cityStateZip: string)
    requires forall q :: 0 <= q < |who| ==> !MatchAt(LowerStr(who + RepresentedBy + rep), RepresentedBy, q)
    requires !IsPhoneFaxGroup(Some([who + RepresentedBy + rep, street, cityStateZip]))
    ensures GroupInfo(Blank, Some([who + RepresentedBy + rep, street, cityStateZip]))
         == FiduciaryFields(who, rep, street, "", cityStateZip, "", "")
  {
    var line := who + RepresentedBy + rep;
    var group := [line, street, cityStateZip];
    NameLineSplit(Blank, who, rep);
    assert GroupInfo(Blank, Some(group)) == AddressInfo(Blank, group);
    assert AddressInfo(Blank, group) == WithNameLine(Blank, line).(addrLn1 := street, cityStateZip := cityStateZip);
  }

  /** A group whose first line starts with a letter other than p or f (in either
      case) is not a phone/fax group. */
  lemma FirstLetterNotPhoneFax(groupedInfo: seq<string>)
    requires groupedInfo != [] && groupedInfo[0] != []
    requires Lower(groupedInfo[0][0]) != 'p' && Lower(groupedInfo[0][0]) != 'f'
    ensures !IsPhoneFaxGroup(Some(groupedInfo))
  {
    assert PhonePrefix[0] == 'p' && FaxPrefix[0] == 'f';
  }

  /** The worked example: "Jane Doe represented by John Smith", "123 Main St",
      "Town CT 06000". */
  lemma WorkedExample()
    ensures GroupInfo(Blank, Some(["Jane Doe " + RepresentedBy + " John Smith", "123 Main St", "Town CT 06000"]))
         == FiduciaryFields("Jane Doe ", " John Smith", "123 Main St", "", "Town CT 06000", "", "")
  {
    var line := "Jane Doe " + RepresentedBy + " John Smith";
    NoMatchInside("Jane Doe ", " John Smith");
    assert line[0] == 'J';
    FirstLetterNotPhoneFax([line, "123 Main St", "Town CT 06000"]);
    ThreeLineGroupWithRepresentative("Jane Doe ", " John Smith", "123 Main St", "Town CT 06000");
  }

  // ---------------------------------------------------------------------------
  // The mutable record
  // ---------------------------------------------------------------------------

  class Fiduciary {
    var name: string
    var representedBy: string
    var addrLn1: string
    var addrLn2: string
    var cityStateZip: string
    var phone: string
    var fax: string

    /** The record's seven fields as one value. */
    function Fields(): FiduciaryFields
      reads this
    {
      FiduciaryFields(name, representedBy, addrLn1, addrLn2, cityStateZip, phone, fax)
    }

    /** Fiduciary(): every field empty. */
    constructor ()
      ensures Fields() == Blank
    {
      name, representedBy, addrLn1, addrLn2 := "", "", "", "";
      cityStateZip, phone, fax := "", "", "";
    }

    /** Fiduciary(String): the name stored verbatim, with no "represented by" split. */
    constructor FromName(name: string)
      ensures Fields() == Blank.(name := name)
    {
      this.name := name;
      representedBy, addrLn1, addrLn2 := "", "", "";
      cityStateZip, phone, fax := "", "", "";
    }

    /** Fiduciary(List): an empty record filled by setGroupInfo. */
    constructor FromGroup(groupedInfo: Option<seq<string>>)
      ensures Fields() == GroupInfo(Blank, groupedInfo)
    {
      name, representedBy, addrLn1, addrLn2 := "", "", "", "";
      cityStateZip, phone, fax := "", "", "";
      new;
      SetGroupInfo(groupedInfo);
    }

    method SetGroupInfo(groupedInfo: Option<seq<string>>)
      modifies this
      ensures Fields() == GroupInfo(old(Fields()), groupedInfo)
    {
      if groupedInfo.Some? && groupedInfo.value != [] {
        if IsPhoneFaxGroup(groupedInfo) {
          SetPhoneFaxGroupInfo(groupedInfo.value);
        } else {
          SetAddressGroupInfo(groupedInfo.value);
        }
      }
    }

    method SetPhoneFaxGroupInfo(groupedInfo: seq<string>)
      modifies this
      ensures Fields() == PhoneFaxInfo(old(Fields()), groupedInfo)
    {
      var i := 0;
      while i < |groupedInfo|
        invariant 0 <= i <= |groupedInfo|
        invariant Fields() == PhoneFaxInfo(old(Fields()), groupedInfo[..i])
      {
        var info := groupedInfo[i];
        assert groupedInfo[..i + 1][..i] == groupedInfo[..i];
        if StartsWith(LowerStr(info), PhonePrefix) {
          SetPhone(Trim(info[|PhonePrefix|..]));
        } else if StartsWith(LowerStr(info), FaxPrefix) {
          SetFax(Trim(info[|FaxPrefix|..]));
        }
        i := i + 1;
      }
      assert groupedInfo[..i] == groupedInfo;
    }

    method SetAddressGroupInfo(groupedInfo: seq<string>)
      modifies this
      ensures Fields() == AddressInfo(old(Fields()), groupedInfo)
    {
      if |groupedInfo| > 0 {
        var line := groupedInfo[0];
        var pos := IndexOf(LowerStr(line), RepresentedBy);
        if pos > -1 {
          this.name := line[..pos];
          this.representedBy := line[pos + |RepresentedBy|..];
        } else {
          this.name := line;
        }

        if |groupedInfo| > 1 {
          this.addrLn1 := groupedInfo[1];
        }

        if |groupedInfo| > 2 {
          if |groupedInfo| > 3 {
            this.addrLn2 := groupedInfo[2];
            this.cityStateZip := groupedInfo[3];
          } else {
            this.cityStateZip := groupedInfo[2];
          }
        }
      }
    }

    method SetName(name: string)
      modifies this
      ensures Fields() == WithNameLine(old(Fields()), name)
    {
      var pos := IndexOf(LowerStr(name), RepresentedBy);
      if pos > -1 {
        this.name := name[..pos];
        this.representedBy := name[pos + |RepresentedBy|..];
      } else {
        this.name := name;
      }
    }

    method SetRepresentedBy(representedBy: string)
      modifies this
      ensures Fields() == old(Fields()).(representedBy := representedBy)
    {
      this.representedBy := representedBy;
    }

    method SetAddrLn1(addrLn1: string)
      modifies this
      ensures Fields() == old(Fields()).(addrLn1 := addrLn1)
    {
      this.addrLn1 := addrLn1;
    }

    method SetAddrLn2(addrLn2: string)
      modifies this
      ensures Fields() == old(Fields()).(addrLn2 := addrLn2)
    {
      this.addrLn2 := addrLn2;
    }

    method SetCityStateZip(cityStateZip: string)
      modifies this
      ensures Fields() == old(Fields()).(cityStateZip := cityStateZip)
    {
      this.cityStateZip := cityStateZip;
    }

    method SetPhone(phone: string)
      modifies this
      ensures Fields() == old(Fields()).(phone := phone)
    {
      this.phone := phone;
    }

    method SetFax(fax: string)
      modifies this
      ensures Fields() == old(Fields()).(fax := fax)
    {
      this.fax := fax;
    }
  }
}
