/** Interpreting the text printed by the helper programs the bridge runs
    (osascript for volume and mute, pmset for the battery). Running the
    program is outside the model: its outcome arrives as a CommandOutput. */
module Readers {
  import opened Results
  import opened Strconv

  /** What exec.Command(...).Output() produced. */
  datatype CommandOutput = Exited(stdout: string) | ExecFailed

  /** Why a reading could not be produced; in the Go code each of these ends
      the process (log.Fatal, or an index-out-of-range panic for the battery). */
  datatype ReadError = ExecError | NotAnInteger(text: string) | NotABool(text: string) | NoPercent

  /** The text osascript prints when the current output device has no volume control. */
  const MissingValue: string := "missing value"

  predicate EndsWithNewline(s: string) {
    |s| > 0 && s[|s| - 1] == '\n'
  }

  /** strings.TrimSuffix(s, "\n"): exactly one trailing newline goes, if there is one. */
  function TrimNewline(s: string): (r: string)
    ensures EndsWithNewline(s) ==> r + "\n" == s
    ensures !EndsWithNewline(s) ==> r == s
  {
    if EndsWithNewline(s) then s[..|s| - 1] else s
  }

  /** getCommandOutput: the program's output without its final newline. */
  function CommandText(o: CommandOutput): (r: Result<string, ReadError>)
    ensures o.ExecFailed? <==> r.Failure?
    ensures r.Success? ==> r.value == TrimNewline(o.stdout)
  {
    match o
    case ExecFailed => Failure(ExecError)
    case Exited(out) => Success(TrimNewline(out))
  }

  /** getCurrentVolume: "missing value" reads as -1, other text must be an integer. */
  function CurrentVolume(o: CommandOutput): (r: Result<int, ReadError>)
    ensures r.Success? <==> o.Exited? && (TrimNewline(o.stdout) == MissingValue || Atoi(TrimNewline(o.stdout)).Some?)
    ensures r.Success? && TrimNewline(o.stdout) != MissingValue ==> Atoi(TrimNewline(o.stdout)) == Some(r.value)
    ensures o.Exited? && TrimNewline(o.stdout) == MissingValue ==> r == Success(-1)
  {
    match CommandText(o)
    case Failure(e) => Failure(e)
    case Success(text) =>
      if text == MissingValue then Success(-1)
      else match Atoi(text)
        case Some(i) => Success(i)
        case None => Failure(NotAnInteger(text))
  }

  /** getCurrentInputVolume: unlike the output volume, no sentinel is recognised. */
  function CurrentInputVolume(o: CommandOutput): (r: Result<int, ReadError>)
    ensures r.Success? <==> o.Exited? && Atoi(TrimNewline(o.stdout)).Some?
    ensures r.Success? ==> Atoi(TrimNewline(o.stdout)) == Some(r.value)
  {
    match CommandText(o)
    case Failure(e) => Failure(e)
    case Success(text) =>
      match Atoi(text)
      case Some(i) => Success(i)
      case None => Failure(NotAnInteger(text))
  }

  /** getMuteStatus: "missing value" reads as not muted, other text must be a Go boolean. */
  function MuteStatus(o: CommandOutput): (r: Result<bool, ReadError>)
    ensures r.Failure? <==>
      o.ExecFailed? || (TrimNewline(o.stdout) != MissingValue && ParseBool(TrimNewline(o.stdout)).None?)
    ensures r == Success(true) ==> TrimNewline(o.stdout) in TrueSpellings
    ensures r == Success(false) ==> TrimNewline(o.stdout) in FalseSpellings || TrimNewline(o.stdout) == MissingValue
  {
    match CommandText(o)
    case Failure(e) => Failure(e)
    case Success(text) =>
      if text == MissingValue then Success(false)
      else match ParseBool(text)
        case Some(b) => Success(b)
        case None => Failure(NotABool(text))
  }

  /** A volume printed by Itoa with a trailing newline reads back as itself. */
  lemma VolumeRoundTrip(v: int)
    requires InInt64(v)
    ensures CurrentVolume(Exited(Itoa(v) + "\n")) == Success(v)
    ensures CurrentInputVolume(Exited(Itoa(v) + "\n")) == Success(v)
  {
    var out := Itoa(v) + "\n";
    assert TrimNewline(out) == Itoa(v);
    AtoiItoa(v);
    var t := Itoa(v);
    assert IsDigit(t[|t| - 1]);
    assert t != MissingValue;
  }

  /** A mute state printed by FormatBool with a trailing newline reads back as itself. */
  lemma MuteRoundTrip(b: bool)
    ensures MuteStatus(Exited(FormatBool(b) + "\n")) == Success(b)
  {
    assert TrimNewline(FormatBool(b) + "\n") == FormatBool(b);
  }

  /** The sentinel is accepted by the output-volume reader but is an error for the input-volume reader. */
  lemma MissingValueOnlyForOutputVolume()
    ensures CurrentVolume(Exited(MissingValue + "\n")) == Success(-1)
    ensures MuteStatus(Exited(MissingValue + "\n")) == Success(false)
    ensures CurrentInputVolume(Exited(MissingValue + "\n")).Failure?
  {
    assert TrimNewline(MissingValue + "\n") == MissingValue;
    assert !IsDigit(MissingValue[0]);
  }

  /** A match of the regular expression (\d+)% whose digits are s[start..end]. */
  ghost predicate PercentMatch(s: string, start: int, end: int) {
    && 0 <= start < end < |s|
    && (forall k :: start <= k < end ==> IsDigit(s[k]))
    && s[end] == '%'
  }

  /** getBatteryChargePercent: the digits of the leftmost match of (\d+)%
      in pmset's output; no match is an error. */
  method BatteryChargePercent(o: CommandOutput) returns (r: Result<string, ReadError>)
    ensures o.ExecFailed? ==> r == Failure(ExecError)
    ensures r.Success? <==> o.Exited? && exists start, end :: PercentMatch(TrimNewline(o.stdout), start, end)
    ensures r.Success? ==>
      var s := TrimNewline(o.stdout);
      exists start, end :: PercentMatch(s, start, end) && r.value == s[start..end]
        && forall start', end' :: PercentMatch(s, start', end') ==> start <= start'
    ensures r == Failure(NoPercent) <==>
      o.Exited? && forall start, end :: !PercentMatch(TrimNewline(o.stdout), start, end)
  {
    if o.ExecFailed? {
      return Failure(ExecError);
    }
    var s := TrimNewline(o.stdout);
    var i := 0;
    while i < |s|
      invariant 0 <= i <= |s|
      invariant forall start, end :: PercentMatch(s, start, end) ==> i <= start
    {
      if !IsDigit(s[i]) {
        i := i + 1;
        continue;
      }
      var j := i + 1;
      while j < |s| && IsDigit(s[j])
        invariant i < j <= |s|
        invariant forall k :: i <= k < j ==> IsDigit(s[k])
      {
        j := j + 1;
      }
      if j < |s| && s[j] == '%' {
        assert PercentMatch(s, i, j);
        return Success(s[i..j]);
      }
      // every start inside the digit run i..j shares its end, which is no '%'
      forall start, end | PercentMatch(s, start, end)
        ensures j <= start
      {
        if start < j {
          assert false;
        }
      }
      i := j;
    }
    return Failure(NoPercent);
  }
}
