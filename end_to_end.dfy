/** The two ends of the serial link together: what the web server's status
    dictionary shows after it decodes a record the panel controller produced. */
module EndToEnd {
  import opened StatusRecord
  import Panel
  import opened Server

  /** The dictionary the home page should show for the given alarms. */
  function Dashboard(a: Alarms): (d: map<string, string>)
    ensures d.Keys == STATUS_KEYS
    ensures Decoded(d)
  {
    map[FLOOD_STATUS := if a.humidity then ALARM else NORMAL,
        SMOKE_STATUS := if a.smoke then ALARM else NORMAL,
        DOOR_STATUS := if a.door then ALARM else NORMAL,
        MOTION_STATUS := if a.motion then ALARM else NORMAL,
        ARMED_STATUS := if a.armed then ARMED_TEXT else UNARMED_TEXT]
  }

  /** Decoding an encoded record shows exactly the alarms it was encoded from,
      whatever the dictionary held before. */
  lemma DecodeAfterEncode(d: map<string, string>, a: Alarms)
    requires d.Keys == STATUS_KEYS
    ensures ApplyLine(d, Encode(a)) == Dashboard(a)
  {
  }

  /** After one controller cycle from a good state, the server shows humidity and
      smoke alarms from the readings, door and motion alarms only while armed,
      and the armed flag the RFID read left. */
  lemma DashboardAfterCycle(d: map<string, string>, st: Panel.State, rd: Panel.Readings, tag1: int, tag2: int)
    requires d.Keys == STATUS_KEYS
    requires Panel.Inv(st)
    ensures
      var st' := Panel.Step(st, rd, tag1, tag2);
      ApplyLine(d, Panel.CString(st'.message)) == Dashboard(Panel.Events(st'.armed, rd))
  {
  }

  /** The k-th line main sends, decoded by the server, shows the alarms of the
      k-th cycle's readings under the armed flag after that cycle. */
  lemma DashboardAfterRun(d: map<string, string>, inputs: seq<Panel.Readings>, k: nat)
    requires d.Keys == STATUS_KEYS
    requires k < |inputs|
    ensures
      var st := Panel.Run(Panel.INITIAL, inputs[..k + 1], Panel.TAG1, Panel.TAG2);
      var line := Panel.Trace(Panel.INITIAL, inputs, Panel.TAG1, Panel.TAG2)[k];
      |line| >= FIELDS && ApplyLine(d, line) == Dashboard(Panel.Events(st.armed, inputs[k]))
  {
    var before := Panel.Run(Panel.INITIAL, inputs[..k], Panel.TAG1, Panel.TAG2);
    var after := Panel.Step(before, inputs[k], Panel.TAG1, Panel.TAG2);
    Panel.RunExtend(Panel.INITIAL, inputs, Panel.TAG1, Panel.TAG2, k);
    Panel.TraceAt(Panel.INITIAL, inputs, Panel.TAG1, Panel.TAG2, k);
    Panel.RunKeepsInv(inputs[..k], Panel.TAG1, Panel.TAG2);
    Panel.StepEncodesReadings(before, inputs[k], Panel.TAG1, Panel.TAG2);
    Panel.RecordValidates(after.message);
    assert Panel.Trace(Panel.INITIAL, inputs, Panel.TAG1, Panel.TAG2)[k] == Panel.CString(after.message);
    DashboardAfterCycle(d, before, inputs[k], Panel.TAG1, Panel.TAG2);
  }
}
