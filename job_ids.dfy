/** Haul-job identifiers (sim.py `_new_job_id`): the text "JOB-" followed by the
    decimal rendering of a number drawn by `random.randint(100000, 999999)`. */
module JobIds {
  import opened Decimal

  datatype Option<T> = None | Some(value: T)

  const JobPrefix: string := "JOB-"
  /** The inclusive bounds of `random.randint(100000, 999999)`. */
  const MinJobNumber: nat := 100000
  const MaxJobNumber: nat := 999999
  /** Number of digits every job number has. */
  const JobDigits: nat := 6

  /** The shape of every identifier `_new_job_id` can return: the prefix, then six
      digits of which the first is not zero. */
  predicate IsJobId(s: string) {
    |s| == |JobPrefix| + JobDigits
    && s[..|JobPrefix|] == JobPrefix
    && AllDigits(s[|JobPrefix|..])
    && s[|JobPrefix|] != '0'
  }

  /** `_new_job_id` for the number the draw produced. */
  function NewJobId(jobNumber: nat): (id: string)
    requires MinJobNumber <= jobNumber <= MaxJobNumber
    ensures IsJobId(id)
    ensures |id| == 10
    ensures DigitsValue(id[|JobPrefix|..]) == jobNumber
  {
    assert Pow10(5) == MinJobNumber && Pow10(6) == MaxJobNumber + 1;
    DigitsLength(jobNumber, JobDigits);
    DigitsValueOfDigits(jobNumber);
    var digits := Digits(jobNumber);
    var id := JobPrefix + digits;
    assert id[..|JobPrefix|] == JobPrefix && id[|JobPrefix|..] == digits;
    id
  }

  /** Reads a job identifier back: the job number it carries, or None for any text
      that `_new_job_id` cannot produce. */
  function ParseJobId(s: string): (r: Option<nat>)
    ensures r.Some? <==> IsJobId(s)
    ensures r.Some? ==> MinJobNumber <= r.value <= MaxJobNumber && NewJobId(r.value) == s
  {
    if IsJobId(s) then
      var digits := s[|JobPrefix|..];
      DigitsValueBounds(digits);
      assert Pow10(5) == MinJobNumber && Pow10(6) == MaxJobNumber + 1;
      var n := DigitsValue(digits);
      DigitsOfDigitsValue(digits);
      assert s == JobPrefix + digits;
      Some(n)
    else
      None
  }

  /** The number drawn can always be recovered from the identifier it becomes. */
  lemma JobIdRoundTrip(jobNumber: nat)
    requires MinJobNumber <= jobNumber <= MaxJobNumber
    ensures ParseJobId(NewJobId(jobNumber)) == Some(jobNumber)
  {
    var id := NewJobId(jobNumber);
    assert id[|JobPrefix|..] == Digits(jobNumber);
    DigitsValueOfDigits(jobNumber);
  }

  /** Distinct draws give distinct identifiers, and equal identifiers come from equal draws. */
  lemma JobIdInjective(m: nat, n: nat)
    requires MinJobNumber <= m <= MaxJobNumber && MinJobNumber <= n <= MaxJobNumber
    ensures NewJobId(m) == NewJobId(n) <==> m == n
  {
    JobIdRoundTrip(m);
    JobIdRoundTrip(n);
  }
}
