/** The file-record parser of the SPDX tag:value format: it turns (tag,
    value) pairs into one record per file, started by `FileName` and
    collecting the file's licenses, concluded license and checksums
    (section 8 of the SPDX 2.2 specification; the license tag is the code's
    `LicenseFoundInFile`). */
module TVParser {
  import opened Wrappers
  import opened Strings

  /** One file's record. Go's nil and empty license lists are both `[]`. */
  datatype FileData = FileData(
    path: string,
    licenseFoundInFile: seq<string>,
    licenseConcluded: string,
    sha1: string,
    sha256: string,
    md5: string)

  /** `&filedata{path: value}`: only the path set. */
  function NewFileData(path: string): FileData {
    FileData(path, [], "", "", "", "")
  }

  /** The parser's fields, as a value; a nil pointer is `None`. */
  datatype ParserState = ParserState(
    midfile: bool,
    fdList: seq<Option<FileData>>,
    currentFileData: Option<FileData>)

  /** The zero value of the Go struct. */
  const Initial := ParserState(false, [], None)

  /** A file is being recorded exactly when there is a current record: the
      invariant every operation keeps, and what makes the dereferences in
      parseNextPairFromMidfile safe. */
  predicate Valid(st: ParserState) {
    st.midfile <==> st.currentFileData.Some?
  }

  predicate IsChecksumType(cType: string) {
    cType == "SHA1" || cType == "SHA256" || cType == "MD5"
  }

  /** The record with the sum of the given type replaced. */
  function WithSum(fd: FileData, cType: string, sum: string): FileData
    requires IsChecksumType(cType)
  {
    if cType == "SHA1" then fd.(sha1 := sum)
    else if cType == "SHA256" then fd.(sha256 := sum)
    else fd.(md5 := sum)
  }

  /** parseFileChecksum on a record: split at the first colon, reject a
      second colon, then store the trimmed sum in the field the type names. */
  function ChecksumUpdate(fd: FileData, checksumTV: string): (r: Result<FileData>)
    ensures r.Ok? ==> r.value.path == fd.path && r.value.licenseFoundInFile == fd.licenseFoundInFile
                      && r.value.licenseConcluded == fd.licenseConcluded
  {
    var sp := SplitN2(checksumTV, ":");
    if |sp| == 1 then Err("invalid FileChecksum format: " + checksumTV)
    else
      var cType := sp[0];
      var cSum := sp[1];
      var colon := SplitN2(cSum, ":");
      if |colon| != 1 then Err("invalid FileChecksum format: " + checksumTV)
      else if cType == "SHA1" then Ok(fd.(sha1 := TrimSpace(cSum)))
      else if cType == "SHA256" then Ok(fd.(sha256 := TrimSpace(cSum)))
      else if cType == "MD5" then Ok(fd.(md5 := TrimSpace(cSum)))
      else Err("unknown FileChecksum type: " + cType)
  }

  /** A checksum value is accepted exactly when it has one colon and the
      text before it is exactly SHA1, SHA256 or MD5 (no trimming); the sum,
      trimmed, goes to that type's field and nothing else changes. */
  lemma ChecksumAcceptsIff(fd: FileData, checksumTV: string)
    ensures var parts := SplitOn(checksumTV, ':');
            ChecksumUpdate(fd, checksumTV).Ok? <==> |parts| == 2 && IsChecksumType(parts[0])
    ensures var parts := SplitOn(checksumTV, ':');
            ChecksumUpdate(fd, checksumTV).Ok? ==>
              ChecksumUpdate(fd, checksumTV).value == WithSum(fd, parts[0], TrimSpace(parts[1]))
  {
    SplitN2AtChar(checksumTV, ':');
    SplitOnSingle(checksumTV, ':');
    var sp := SplitN2(checksumTV, ":");
    if |sp| == 2 {
      SplitN2AsSplitOn(checksumTV, ':');
      SplitN2AtChar(sp[1], ':');
      SplitOnSingle(sp[1], ':');
      if ':' !in sp[1] {
        SplitOnNoSep(sp[1], ':');
      }
    }
  }

  /** A failed checksum leaves the record as it was, and says why. */
  lemma ChecksumErrors(fd: FileData, checksumTV: string)
    ensures var parts := SplitOn(checksumTV, ':');
            && (|parts| != 2 ==> ChecksumUpdate(fd, checksumTV)
                                   == Err("invalid FileChecksum format: " + checksumTV))
            && (|parts| == 2 && !IsChecksumType(parts[0]) ==>
                  ChecksumUpdate(fd, checksumTV) == Err("unknown FileChecksum type: " + parts[0]))
  {
    SplitN2AtChar(checksumTV, ':');
    SplitOnSingle(checksumTV, ':');
    var sp := SplitN2(checksumTV, ":");
    if |sp| == 2 {
      SplitN2AsSplitOn(checksumTV, ':');
      SplitN2AtChar(sp[1], ':');
      SplitOnSingle(sp[1], ':');
      if ':' !in sp[1] {
        SplitOnNoSep(sp[1], ':');
      }
    }
  }

  /** A sum written after `type: ` is read back as written. */
  lemma ChecksumRoundTrip(fd: FileData, cType: string, sum: string)
    requires IsChecksumType(cType) && ':' !in sum && Trimmed(sum)
    ensures ChecksumUpdate(fd, cType + ": " + sum) == Ok(WithSum(fd, cType, sum))
  {
    var s := cType + ": " + sum;
    assert s == cType + [':'] + (" " + sum);
    assert ':' !in cType;
    SplitAtChar(cType, ':', " " + sum);
    assert ':' !in " " + sum;
    IndexOfAbsentChar(" " + sum, ':');
    TrimSpaceAfterSpace(' ', sum);
    TrimSpaceOfTrimmed(sum);
  }

  /** A sum written right after `type:` is read back as written. */
  lemma ChecksumRoundTripNoSpace(fd: FileData, cType: string, sum: string)
    requires IsChecksumType(cType) && ':' !in sum && Trimmed(sum)
    ensures ChecksumUpdate(fd, cType + ":" + sum) == Ok(WithSum(fd, cType, sum))
  {
    assert cType + ":" + sum == cType + [':'] + sum;
    assert ':' !in cType;
    SplitAtChar(cType, ':', sum);
    IndexOfAbsentChar(sum, ':');
    TrimSpaceOfTrimmed(sum);
  }

  /** Text after the colon that holds another colon is refused. */
  lemma ChecksumSecondColon(fd: FileData, cType: string, rest: string)
    requires ':' !in cType && ':' in rest
    ensures ChecksumUpdate(fd, cType + ":" + rest) == Err("invalid FileChecksum format: " + cType + ":" + rest)
  {
    assert cType + ":" + rest == cType + [':'] + rest;
    SplitAtChar(cType, ':', rest);
    SplitN2AtChar(rest, ':');
  }

  /** A colon-free type other than the three is refused by name. */
  lemma ChecksumUnknownType(fd: FileData, cType: string, sum: string)
    requires ':' !in cType && !IsChecksumType(cType) && ':' !in sum
    ensures ChecksumUpdate(fd, cType + ":" + sum) == Err("unknown FileChecksum type: " + cType)
  {
    assert cType + ":" + sum == cType + [':'] + sum;
    SplitAtChar(cType, ':', sum);
    IndexOfAbsentChar(sum, ':');
  }

  /** The checksums of the parser's unit tests: two accepted, with and
      without a space after the colon, and three refused, for having no
      colon, a second colon, and an unknown type. */
  lemma ChecksumExampleSha1(fd: FileData, tv: string)
    requires tv == "SHA1: abc123"
    ensures ChecksumUpdate(fd, tv) == Ok(fd.(sha1 := "abc123"))
  {
    var cType, sum := "SHA1", "abc123";
    assert tv == cType + ": " + sum;
    ChecksumRoundTrip(fd, cType, sum);
  }

  lemma ChecksumExampleMd5(fd: FileData, tv: string)
    requires tv == "MD5:123"
    ensures ChecksumUpdate(fd, tv) == Ok(fd.(md5 := "123"))
  {
    var cType, sum := "MD5", "123";
    assert tv == cType + ":" + sum;
    ChecksumRoundTripNoSpace(fd, cType, sum);
  }

  lemma ChecksumExampleNoColon(fd: FileData, tv: string)
    requires tv == "blah"
    ensures ChecksumUpdate(fd, tv) == Err("invalid FileChecksum format: blah")
  {
    SplitN2AtChar(tv, ':');
  }

  lemma ChecksumExampleTwoColons(fd: FileData, tv: string)
    requires tv == "MD5: 12390834: other"
    ensures ChecksumUpdate(fd, tv) == Err("invalid FileChecksum format: " + tv)
  {
    var cType, rest := "MD5", " 12390834: other";
    assert tv == cType + ":" + rest;
    assert rest[9] == ':';
    ChecksumSecondColon(fd, cType, rest);
  }

  lemma ChecksumExampleUnknown(fd: FileData, tv: string)
    requires tv == "ECDSA: 12390834"
    ensures ChecksumUpdate(fd, tv) == Err("unknown FileChecksum type: " + tv[..5])
  {
    var cType, sum := tv[..5], tv[6..];
    assert tv == cType + ":" + sum;
    assert |cType| == 5 && ':' !in cType;
    assert ':' !in sum;
    ChecksumUnknownType(fd, cType, sum);
  }

  /** parseNextPairFromReady: only FileName matters; it starts a record. */
  function FromReady(st: ParserState, tag: string, value: string): ParserState {
    if tag == "FileName" then st.(currentFileData := Some(NewFileData(value)), midfile := true)
    else st
  }

  /** parseNextPairFromMidfile. The record is dereferenced for the license
      and checksum tags, so a current record is required. */
  function FromMidfile(st: ParserState, tag: string, value: string): (r: (Outcome, ParserState))
    requires st.currentFileData.Some?
  {
    var fd := st.currentFileData.value;
    if tag == "LicenseFoundInFile" then
      (Pass, st.(currentFileData := Some(fd.(licenseFoundInFile := fd.licenseFoundInFile + [value]))))
    else if tag == "LicenseConcluded" then
      (Pass, st.(currentFileData := Some(fd.(licenseConcluded := value))))
    else if tag == "FileChecksum" then
      match ChecksumUpdate(fd, value)
      case Err(e) => (Fail(e), st)
      case Ok(fd') => (Pass, st.(currentFileData := Some(fd')))
    else if tag == "FileName" then
      (Pass, st.(fdList := st.fdList + [st.currentFileData], currentFileData := Some(NewFileData(value))))
    else
      (Pass, st)
  }

  /** parseNextPair. */
  function NextPair(st: ParserState, tag: string, value: string): (r: (Outcome, ParserState))
    requires Valid(st)
  {
    if st.midfile then FromMidfile(st, tag, value) else (Pass, FromReady(st, tag, value))
  }

  /** finalize: nothing when nothing was recorded; otherwise the current
      record (nil after a previous finalize) is appended and returned with
      the earlier ones. The Go error result is always nil. */
  function Finalized(st: ParserState): (r: (seq<Option<FileData>>, ParserState)) {
    if st.fdList == [] && st.currentFileData.None? then ([], st)
    else
      var fdList := st.fdList + [st.currentFileData];
      (fdList, ParserState(false, fdList, None))
  }

  /** Feeding pairs in order, stopping at the first error. */
  function ParsePairs(st: ParserState, pairs: seq<(string, string)>): (r: (Outcome, ParserState))
    requires Valid(st)
    ensures Valid(r.1)
    decreases |pairs|
  {
    if pairs == [] then (Pass, st)
    else
      NextPairValid(st, pairs[0].0, pairs[0].1);
      var (o, st1) := NextPair(st, pairs[0].0, pairs[0].1);
      if o.Fail? then (o, st1) else ParsePairs(st1, pairs[1..])
  }

  /** Every step keeps the invariant; finalize re-establishes the ready
      state. */
  lemma NextPairValid(st: ParserState, tag: string, value: string)
    requires Valid(st)
    ensures Valid(NextPair(st, tag, value).1)
  {
    if st.midfile && tag == "FileChecksum" {
      if ChecksumUpdate(st.currentFileData.value, value).Ok? {
      }
    }
  }

  lemma FinalizeValid(st: ParserState)
    requires Valid(st)
    ensures Valid(Finalized(st).1) && !Finalized(st).1.midfile
  {
  }

  /** In the ready state FileName starts a record holding only the path;
      any other tag changes nothing. */
  lemma ReadyPair(st: ParserState, tag: string, value: string)
    requires Valid(st) && !st.midfile
    ensures NextPair(st, tag, value).0 == Pass
    ensures tag == "FileName" ==>
              NextPair(st, tag, value).1 == ParserState(true, st.fdList, Some(NewFileData(value)))
    ensures tag != "FileName" ==> NextPair(st, tag, value).1 == st
  {
  }

  /** Inside a record: licenses are appended in order, the concluded
      license is overwritten, FileName saves the record and starts another,
      and unknown tags are ignored. */
  lemma MidfilePair(st: ParserState, tag: string, value: string)
    requires Valid(st) && st.midfile
    ensures var fd := st.currentFileData.value;
            var (o, st') := NextPair(st, tag, value);
            && (tag == "LicenseFoundInFile" ==>
                  o == Pass && st' == st.(currentFileData := Some(fd.(licenseFoundInFile := fd.licenseFoundInFile + [value]))))
            && (tag == "LicenseConcluded" ==>
                  o == Pass && st' == st.(currentFileData := Some(fd.(licenseConcluded := value))))
            && (tag == "FileName" ==>
                  o == Pass && st' == ParserState(true, st.fdList + [Some(fd)], Some(NewFileData(value))))
            && ((tag != "LicenseFoundInFile" && tag != "LicenseConcluded" && tag != "FileChecksum"
                 && tag != "FileName") ==> o == Pass && st' == st)
  {
  }

  /** A checksum pair inside a record: on error nothing changes, otherwise
      only the named sum does. */
  lemma MidfileChecksum(st: ParserState, value: string)
    requires Valid(st) && st.midfile
    ensures var fd := st.currentFileData.value;
            var (o, st') := NextPair(st, "FileChecksum", value);
            && (o.Fail? <==> ChecksumUpdate(fd, value).Err?)
            && (o.Fail? ==> st' == st)
            && (o.Pass? ==> st' == st.(currentFileData := Some(ChecksumUpdate(fd, value).value)))
  {
  }

  /** finalize returns nothing exactly when nothing was recorded, and
      otherwise the saved records followed by the current one. */
  lemma FinalizeResult(st: ParserState)
    ensures Finalized(st).0 == [] <==> (st.fdList == [] && st.currentFileData.None?)
    ensures Finalized(st).0 != [] ==> Finalized(st).0 == st.fdList + [st.currentFileData]
  {
  }

  /** A second finalize appends a nil record: the first one leaves records
      in fdList but clears the current record. */
  lemma FinalizeTwice(st: ParserState)
    requires Finalized(st).0 != []
    ensures Finalized(Finalized(st).1).0 == Finalized(st).0 + [None]
  {
  }

  /** The saved records are never nil while pairs are parsed. */
  predicate SavedRecordsPresent(st: ParserState) {
    forall i :: 0 <= i < |st.fdList| ==> st.fdList[i].Some?
  }

  lemma NextPairKeepsRecordsPresent(st: ParserState, tag: string, value: string)
    requires Valid(st) && SavedRecordsPresent(st)
    ensures SavedRecordsPresent(NextPair(st, tag, value).1)
  {
    if st.midfile && tag == "FileChecksum" {
      if ChecksumUpdate(st.currentFileData.value, value).Ok? {
      }
    }
  }

  /** The pairs that list licenses for the current file. */
  function LicensePairs(values: seq<string>): (r: seq<(string, string)>)
    ensures |r| == |values|
    ensures forall i :: 0 <= i < |values| ==> r[i] == ("LicenseFoundInFile", values[i])
  {
    if values == [] then [] else [("LicenseFoundInFile", values[0])] + LicensePairs(values[1..])
  }

  /** A run of license pairs inside a record appends the licenses in the
      order given. */
  lemma {:induction false} LicensesInOrder(st: ParserState, values: seq<string>)
    requires Valid(st) && st.midfile
    ensures var fd := st.currentFileData.value;
            ParsePairs(st, LicensePairs(values))
              == (Pass, st.(currentFileData := Some(fd.(licenseFoundInFile := fd.licenseFoundInFile + values))))
    decreases |values|
  {
    var fd := st.currentFileData.value;
    if values == [] {
      assert fd.licenseFoundInFile + values == fd.licenseFoundInFile;
      assert fd.(licenseFoundInFile := fd.licenseFoundInFile) == fd;
    } else {
      var st1 := st.(currentFileData := Some(fd.(licenseFoundInFile := fd.licenseFoundInFile + [values[0]])));
      assert NextPair(st, "LicenseFoundInFile", values[0]) == (Pass, st1);
      assert LicensePairs(values)[1..] == LicensePairs(values[1..]);
      assert ParsePairs(st, LicensePairs(values)) == ParsePairs(st1, LicensePairs(values[1..]));
      LicensesInOrder(st1, values[1..]);
      assert fd.licenseFoundInFile + [values[0]] + values[1..] == fd.licenseFoundInFile + values;
    }
  }

  /** The parser object: the model of `spdxTVParser`. */
  class SpdxTVParser {
    var midfile: bool
    var fdList: seq<Option<FileData>>
    var currentFileData: Option<FileData>

    function State(): ParserState
      reads this
    {
      ParserState(midfile, fdList, currentFileData)
    }

    constructor ()
      ensures State() == Initial && Valid(State())
    {
      midfile := false;
      fdList := [];
      currentFileData := None;
    }

    method Finalize() returns (r: seq<Option<FileData>>)
      modifies this
      ensures (r, State()) == Finalized(old(State()))
    {
      if fdList == [] && currentFileData == None {
        return [];
      }
      fdList := fdList + [currentFileData];
      midfile := false;
      currentFileData := None;
      return fdList;
    }

    method ParseNextPair(tag: string, value: string) returns (err: Outcome)
      requires Valid(State())
      modifies this
      ensures (err, State()) == NextPair(old(State()), tag, value)
      ensures Valid(State())
    {
      NextPairValid(State(), tag, value);
      if midfile {
        err := ParseNextPairFromMidfile(tag, value);
        return;
      }
      err := ParseNextPairFromReady(tag, value);
    }

    method ParseNextPairFromReady(tag: string, value: string) returns (err: Outcome)
      modifies this
      ensures err == Pass && State() == FromReady(old(State()), tag, value)
    {
      if tag == "FileName" {
        currentFileData := Some(NewFileData(value));
        midfile := true;
      }
      return Pass;
    }

    method ParseNextPairFromMidfile(tag: string, value: string) returns (err: Outcome)
      requires currentFileData.Some?
      modifies this
      ensures (err, State()) == FromMidfile(old(State()), tag, value)
    {
      if tag == "LicenseFoundInFile" {
        var fd := currentFileData.value;
        currentFileData := Some(fd.(licenseFoundInFile := fd.licenseFoundInFile + [value]));
      } else if tag == "LicenseConcluded" {
        currentFileData := Some(currentFileData.value.(licenseConcluded := value));
      } else if tag == "FileChecksum" {
        err := ParseFileChecksum(value);
        return;
      } else if tag == "FileName" {
        fdList := fdList + [currentFileData];
        currentFileData := Some(NewFileData(value));
      }
      return Pass;
    }

    /** parseFileChecksum on the current record, which must exist. */
    method ParseFileChecksum(checksumTV: string) returns (err: Outcome)
      requires currentFileData.Some?
      modifies this
      ensures var r := ChecksumUpdate(old(currentFileData.value), checksumTV);
              && (err.Pass? <==> r.Ok?)
              && (r.Err? ==> err == Fail(r.msg) && currentFileData == old(currentFileData))
              && (r.Ok? ==> currentFileData == Some(r.value))
      ensures midfile == old(midfile) && fdList == old(fdList)
    {
      var sp := SplitN2(checksumTV, ":");
      if |sp| == 1 {
        return Fail("invalid FileChecksum format: " + checksumTV);
      }
      var cType := sp[0];
      var cSum := sp[1];
      var colon := SplitN2(cSum, ":");
      if |colon| != 1 {
        return Fail("invalid FileChecksum format: " + checksumTV);
      }
      var fd := currentFileData.value;
      if cType == "SHA1" {
        currentFileData := Some(fd.(sha1 := TrimSpace(cSum)));
      } else if cType == "SHA256" {
        currentFileData := Some(fd.(sha256 := TrimSpace(cSum)));
      } else if cType == "MD5" {
        currentFileData := Some(fd.(md5 := TrimSpace(cSum)));
      } else {
        return Fail("unknown FileChecksum type: " + cType);
      }
      return Pass;
    }
  }
}
