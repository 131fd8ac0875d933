/** The tip flow: a tip is asked for each record whose attendance is below
    its target, and kept when the text-generation prompt returns a
    non-empty text. The prompt is a function parameter: nothing is assumed
    about what it returns. */
module AttendanceTips {
  import opened Wrappers

  /** One entry of `attendanceData`. */
  datatype AttendanceData = AttendanceData(subject: string, attended: int, total: int, targetAttendance: int)

  datatype Tip = Tip(subject: string, tip: string)

  /** The flow's schema rejected its input. */
  datatype TipsError = InvalidInput

  /** `AttendanceDataSchema`: attended a non-negative integer, total a
      positive integer, target an integer from 0 to 100. */
  predicate ValidRecord(d: AttendanceData): (b: bool)
    ensures b ==> d.total != 0
  {
    d.attended >= 0 && d.total > 0 && 0 <= d.targetAttendance <= 100
  }

  predicate AllValid(data: seq<AttendanceData>): (b: bool)
    ensures b <==> forall d :: d in data ==> ValidRecord(d)
  {
    forall i :: 0 <= i < |data| ==> ValidRecord(data[i])
  }

  /** The `shouldProvideTip` tool: `(attended / total) * 100 < targetAttendance`. */
  function ShouldProvideTip(d: AttendanceData): (b: bool)
    requires ValidRecord(d)
    ensures b <==> 100 * d.attended < d.targetAttendance * d.total
    ensures d.targetAttendance == 0 ==> !b
  {
    var t := d.total as real;
    var p := (d.attended as real / t) * 100.0;
    assert p * t == 100.0 * d.attended as real;
    if p < d.targetAttendance as real then
      assert p * t < d.targetAttendance as real * t;
      true
    else
      assert p * t >= d.targetAttendance as real * t;
      false
  }

  /** What one record adds to the tips: its prompt output, when a tip is
      warranted and the output is present and non-empty (JavaScript's
      `if (output)`). */
  function TipFor(d: AttendanceData, prompt: AttendanceData -> Option<string>): (r: seq<Tip>)
    requires ValidRecord(d)
    ensures |r| <= 1
    ensures |r| == 1 <==> ShouldProvideTip(d) && prompt(d).Some? && prompt(d).value != ""
    ensures |r| == 1 ==> r[0] == Tip(d.subject, prompt(d).value)
  {
    if ShouldProvideTip(d) then
      match prompt(d)
      case Some(text) => if text != "" then [Tip(d.subject, text)] else []
      case None => []
    else []
  }

  /** The tips the flow returns for `data`: each record's contribution, in
      order. No tip text is empty and there are never more tips than records. */
  function Tips(data: seq<AttendanceData>, prompt: AttendanceData -> Option<string>): (tips: seq<Tip>)
    requires AllValid(data)
    ensures |tips| <= |data|
    ensures forall k :: 0 <= k < |tips| ==> tips[k].tip != ""
  {
    if |data| == 0 then []
    else Tips(data[..|data| - 1], prompt) + TipFor(data[|data| - 1], prompt)
  }

  /** Where each tip comes from: a strictly increasing list of record
      positions, one per tip, each a record that warranted a tip and whose
      prompt output is that tip; every record whose output was kept appears. */
  lemma {:induction false} TipOrigins(data: seq<AttendanceData>, prompt: AttendanceData -> Option<string>)
    returns (idx: seq<nat>)
    requires AllValid(data)
    ensures |idx| == |Tips(data, prompt)|
    ensures forall k :: 0 <= k < |idx| ==> idx[k] < |data|
    ensures forall k, l :: 0 <= k < l < |idx| ==> idx[k] < idx[l]
    ensures forall k :: 0 <= k < |idx| ==>
      ShouldProvideTip(data[idx[k]]) && prompt(data[idx[k]]).Some? &&
      Tips(data, prompt)[k] == Tip(data[idx[k]].subject, prompt(data[idx[k]]).value)
    ensures forall j :: 0 <= j < |data| && |TipFor(data[j], prompt)| == 1 ==> j in idx
  {
    if |data| == 0 {
      idx := [];
    } else {
      var n := |data| - 1;
      var front := data[..n];
      assert AllValid(front);
      var prev := TipOrigins(front, prompt);
      var earlier, last := Tips(front, prompt), TipFor(data[n], prompt);
      assert Tips(data, prompt) == earlier + last;
      assert forall j :: 0 <= j < n ==> front[j] == data[j];
      if |last| == 1 {
        idx := prev + [n];
        assert Tips(data, prompt)[|prev|] == last[0];
      } else {
        idx := prev;
        assert Tips(data, prompt) == earlier;
      }
    }
  }

  /** `generateAttendanceTipsFlow`'s loop: for each record, consult the tool,
      then the prompt, and push the tip. */
  method GenerateTipsLoop(attendanceData: seq<AttendanceData>, prompt: AttendanceData -> Option<string>)
    returns (tips: seq<Tip>)
    requires AllValid(attendanceData)
    ensures tips == Tips(attendanceData, prompt)
  {
    tips := [];
    for i := 0 to |attendanceData|
      invariant tips == Tips(attendanceData[..i], prompt)
    {
      assert attendanceData[..i + 1][..i] == attendanceData[..i];
      var record := attendanceData[i];
      var shouldProvide := ShouldProvideTip(record);
      if shouldProvide {
        var output := prompt(record);
        if output.Some? && output.value != "" {
          tips := tips + [Tip(record.subject, output.value)];
        }
      }
    }
    assert attendanceData[..|attendanceData|] == attendanceData;
  }

  /** `generateAttendanceTips`: the flow first checks its input against the
      schema, and fails as a whole if any record is out of range. */
  method GenerateAttendanceTips(attendanceData: seq<AttendanceData>, prompt: AttendanceData -> Option<string>)
    returns (r: Result<seq<Tip>, TipsError>)
    ensures r.Success? <==> AllValid(attendanceData)
    ensures r.Success? ==> r.value == Tips(attendanceData, prompt)
  {
    if !AllValid(attendanceData) {
      return Failure(InvalidInput);
    }
    var tips := GenerateTipsLoop(attendanceData, prompt);
    return Success(tips);
  }
}
