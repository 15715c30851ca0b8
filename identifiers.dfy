/** Human-readable identifiers derived from a record count: the patient MRN assigned by the
    pre-save hook of backend/models/Patient.js and the doctor code assigned by createDoctor in
    backend/controllers/doctorController.js. */
module Identifiers {
  import opened Wrappers
  import opened Text

  const MrnPrefix: string := "MRN"
  const MrnDigits: nat := 6
  const DoctorIdPrefix: string := "DOC"
  const DoctorIdDigits: nat := 4

  /** `${prefix}${String(n).padStart(width, '0')}`: the prefix, then the digits of `n`, which
      read back as `n` and fill at least `width` places. */
  function FormatId(prefix: string, width: nat, n: nat): (id: string)
    ensures |id| >= |prefix| + width
    ensures id[..|prefix|] == prefix
    ensures AllDigits(id[|prefix|..]) && DigitsValue(id[|prefix|..]) == n
  {
    ZeroPadDigits(n, width);
    assert (prefix + ZeroPad(n, width))[|prefix|..] == ZeroPad(n, width);
    prefix + ZeroPad(n, width)
  }

  /** Different numbers never share an identifier under the same prefix and width. */
  lemma FormatIdInjective(prefix: string, width: nat, a: nat, b: nat)
    ensures FormatId(prefix, width, a) == FormatId(prefix, width, b) <==> a == b
  {
    if FormatId(prefix, width, a) == FormatId(prefix, width, b) {
      assert FormatId(prefix, width, a)[|prefix|..] == FormatId(prefix, width, b)[|prefix|..];
    }
  }

  /** The MRN given to a new patient when `count` patients are already stored. */
  function NextMrn(count: nat): string
  {
    FormatId(MrnPrefix, MrnDigits, count + 1)
  }

  /** The code given to a new doctor when `count` doctors are already stored. */
  function NextDoctorId(count: nat): string
  {
    FormatId(DoctorIdPrefix, DoctorIdDigits, count + 1)
  }

  /** The MRN for `count` is "MRN" followed by `count + 1` in six zero-padded digits while
      `count + 1 < 10^6`; beyond that the digits of `count + 1` are kept whole, so the MRN
      grows rather than being truncated. */
  lemma NextMrnShape(count: nat)
    ensures NextMrn(count)[..3] == "MRN"
    ensures DigitsValue(NextMrn(count)[3..]) == count + 1
    ensures count + 1 < 1000000 ==> |NextMrn(count)| == 9
    ensures count + 1 >= 1000000 ==> |NextMrn(count)| > 9 && NextMrn(count) == "MRN" + NatToString(count + 1)
  {
    assert Pow10(6) == 1000000;
    ZeroPadWidth(count + 1, 6);
  }

  /** The code for `count` is "DOC" followed by `count + 1` in four zero-padded digits while
      `count + 1 < 10^4`, and by all of its digits beyond that. */
  lemma NextDoctorIdShape(count: nat)
    ensures NextDoctorId(count)[..3] == "DOC"
    ensures DigitsValue(NextDoctorId(count)[3..]) == count + 1
    ensures count + 1 < 10000 ==> |NextDoctorId(count)| == 7
    ensures count + 1 >= 10000 ==> |NextDoctorId(count)| > 7 && NextDoctorId(count) == "DOC" + NatToString(count + 1)
  {
    assert Pow10(4) == 10000;
    ZeroPadWidth(count + 1, 4);
  }

  /** Two counts give the same MRN only if they are equal, so registrations made one after
      another, each seeing one more stored patient, receive pairwise distinct MRNs. */
  lemma NextMrnInjective(a: nat, b: nat)
    ensures NextMrn(a) == NextMrn(b) <==> a == b
  {
    FormatIdInjective(MrnPrefix, MrnDigits, a + 1, b + 1);
  }

  /** Two counts give the same doctor code only if they are equal. */
  lemma NextDoctorIdInjective(a: nat, b: nat)
    ensures NextDoctorId(a) == NextDoctorId(b) <==> a == b
  {
    FormatIdInjective(DoctorIdPrefix, DoctorIdDigits, a + 1, b + 1);
  }

  /** The first MRN handed out on an empty collection. */
  lemma FirstMrn()
    ensures NextMrn(0) == "MRN000001"
  {
    ShortFormatId(MrnPrefix, 6, 1, "1");
    assert Repeat('0', 5) == "00000";
  }

  /** The second MRN handed out. */
  lemma SecondMrn()
    ensures NextMrn(1) == "MRN000002"
  {
    ShortFormatId(MrnPrefix, 6, 2, "2");
    assert Repeat('0', 5) == "00000";
  }

  /** The tenth MRN handed out. */
  lemma TenthMrn()
    ensures NextMrn(9) == "MRN000010"
  {
    assert NatToString(10) == NatToString(1) + [DigitChar(0)];
    ShortFormatId(MrnPrefix, 6, 10, "10");
    assert Repeat('0', 4) == "0000";
  }

  /** The first doctor code handed out on an empty collection. */
  lemma FirstDoctorId()
    ensures NextDoctorId(0) == "DOC0001"
  {
    ShortFormatId(DoctorIdPrefix, 4, 1, "1");
    assert Repeat('0', 3) == "000";
  }

  /** A number whose text `digits` is shorter than the width is padded with zeros in front. */
  lemma ShortFormatId(prefix: string, width: nat, n: nat, digits: string)
    requires NatToString(n) == digits && |digits| < width
    ensures FormatId(prefix, width, n) == prefix + Repeat('0', width - |digits|) + digits
  {
    assert ZeroPad(n, width) == Repeat('0', width - |digits|) + digits;
  }

  /** The pre-save hook (`if (this.isNew && !this.mrn)`): a new document whose `mrn` is
      absent or empty gets the next MRN for the current count; a document that is not new,
      or already carries a non-empty MRN, keeps the one it has. */
  function PreSaveMrn(isNew: bool, mrn: Option<string>, count: nat): (r: Option<string>)
    ensures isNew && (mrn == None || mrn == Some("")) ==> r == Some(NextMrn(count))
    ensures !isNew || (mrn != None && mrn != Some("")) ==> r == mrn
    ensures r != None && r != Some("") <== isNew
  {
    if isNew && (mrn.None? || mrn.value == "") then Some(NextMrn(count)) else mrn
  }
}
