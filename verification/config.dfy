/** The constant tables of the reporting tool: the no-data sentinel, the scheduler's
    job-state codes and their letters, the zeroed status counters, the exit-code
    labels and the strings that mark a CVMFS failure in a job's output. */
module Config {
  import opened Wrappers

  /** The single no-data sentinel shown wherever a value is absent. */
  const NullField: string := "-"

  /** The scheduler's job states, one per letter of the state table. */
  datatype Status = Unexpanded | Idle | Running | Removed | Completed | Held | SubmissionError

  /** The state table: integer JobStatus code to its one-letter name. */
  const JobStates: map<int, string> :=
    map[0 := "U", 1 := "I", 2 := "R", 3 := "X", 4 := "C", 5 := "H", 6 := "E"]

  function Letter(s: Status): string {
    match s
    case Unexpanded => "U"
    case Idle => "I"
    case Running => "R"
    case Removed => "X"
    case Completed => "C"
    case Held => "H"
    case SubmissionError => "E"
  }

  /** Decoding a JobStatus code: defined exactly on the table's codes, and the
      decoded state carries the letter the table gives the code. */
  function StatusOf(code: int): (r: Option<Status>)
    ensures r.Some? <==> code in JobStates
    ensures r.Some? ==> JobStates[code] == Letter(r.value)
  {
    if code == 0 then Some(Unexpanded)
    else if code == 1 then Some(Idle)
    else if code == 2 then Some(Running)
    else if code == 3 then Some(Removed)
    else if code == 4 then Some(Completed)
    else if code == 5 then Some(Held)
    else if code == 6 then Some(SubmissionError)
    else None
  }

  /** The table covers exactly the codes 0..6 and its letters are pairwise distinct,
      so a letter identifies its state. */
  lemma JobStatesShape()
    ensures forall code :: code in JobStates <==> 0 <= code <= 6
    ensures forall a, b :: a in JobStates && b in JobStates && JobStates[a] == JobStates[b] ==> a == b
  {
  }

  lemma LetterInjective(a: Status, b: Status)
    requires Letter(a) == Letter(b)
    ensures a == b
  {
  }

  predicate ValidStatus(code: int) {
    code in JobStates
  }

  /** The decoded state of a valid code. */
  function StatusOfValid(code: int): Status
    requires ValidStatus(code)
  {
    StatusOf(code).value
  }

  /** The six status counters of a summary row. */
  datatype Counts = Counts(done: int, run: int, idle: int, held: int, other: int, total: int)

  const ZeroCounts: Counts := Counts(0, 0, 0, 0, 0, 0)

  /** The exit-code table in its source order: code to the stage that failed. */
  const ExitCodes: seq<(int, string)> :=
    [(202, "cvmfs"), (203, "generator"), (211, "ls"), (204, "gemc"), (0, "success/unknown"),
     (205, "evio2hipo"), (207, "recon-util"), (208, "hipo-utils"), (212, "xrootd")]

  function LookupLabel(table: seq<(int, string)>, code: int): (r: Option<string>)
    ensures r.Some? <==> exists i :: 0 <= i < |table| && table[i].0 == code
    ensures r.Some? ==> exists i :: 0 <= i < |table| && table[i] == (code, r.value)
  {
    if |table| == 0 then None
    else if table[0].0 == code then Some(table[0].1)
    else
      var r := LookupLabel(table[1..], code);
      assert forall i :: 0 <= i < |table| - 1 ==> table[1..][i] == table[i + 1];
      r
  }

  /** `exit_codes.get(code)`: the label of a known code, `None` for any other. */
  function ExitLabel(code: int): Option<string> {
    LookupLabel(ExitCodes, code)
  }

  /** The exit-code table has nine distinct codes. */
  lemma ExitCodesShape()
    ensures |ExitCodes| == 9
    ensures forall i, j :: 0 <= i < j < |ExitCodes| ==> ExitCodes[i].0 != ExitCodes[j].0
  {
  }

  /** Two of the table's labels, and a code it does not know. */
  lemma ExitLabels()
    ensures ExitLabel(212) == Some("xrootd") && ExitLabel(202) == Some("cvmfs")
    ensures ExitLabel(1) == None
  {
    assert ExitCodes[8] == (212, "xrootd");
    assert forall i :: 0 <= i < |ExitCodes| ==> ExitCodes[i].0 != 1;
  }

  /** Only code 212 carries the `xrootd` label. */
  lemma XrootdCode(code: int)
    ensures ExitLabel(code) == Some("xrootd") <==> code == 212
  {
    ExitLabels();
    XrootdLast();
    OnlyLastLabel(ExitCodes, code, "xrootd");
  }

  lemma XrootdLast()
    ensures forall j :: 0 <= j < |ExitCodes| - 1 ==> ExitCodes[j].1 != "xrootd"
  {
    forall j | 0 <= j < |ExitCodes| - 1 ensures ExitCodes[j].1 != "xrootd" {
      assert ExitCodes[j].1[0] != 'x';
    }
  }

  /** A label that only the table's last entry carries is found for that entry's code
      alone. */
  lemma OnlyLastLabel(table: seq<(int, string)>, code: int, name: string)
    requires |table| > 0 && forall j :: 0 <= j < |table| - 1 ==> table[j].1 != name
    ensures LookupLabel(table, code) == Some(name) ==> code == table[|table| - 1].0
  {
  }

  /** Text that marks a CVMFS failure in a job's standard output. */
  const CvmfsErrorStrings: seq<string> :=
    ["Loaded environment state is inconsistent", "Command not found",
     "Unable to access the Singularity image", "CVMFS ERROR"]
}
