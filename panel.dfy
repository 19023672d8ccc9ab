/** The panel controller (MbedMasterProgram.cpp): one polling cycle updates the
    armed flag and the status buffer in place, checks the buffer and sends it.
    Sensor and RFID readings arrive as explicit inputs; the two serial channels
    are modelled as the lines they are given. */
module Panel {
  import opened StatusRecord

  datatype Option<T> = None | Some(value: T)

  const ARMED: int := 1
  const UNARMED: int := 0
  const HIGH_SMOKE_LEVEL: int := 1000
  const DOOR_OPEN: int := 0
  const MOTION_SENSED: int := 1
  const HIGH_HUMIDITY: int := 60
  /** The two tag ids that main hands to readRfid. */
  const TAG1: int := 9804081
  const TAG2: int := 9770265
  const NUL: char := '\0'
  /** Largest value of the controller's 32-bit size_t. */
  const SIZE_MAX: int := 0xFFFF_FFFF

  /** One cycle's sensor readings. tag is None when the RFID reader has nothing readable. */
  datatype Readings = Readings(tag: Option<int>, contact: int, smoke: int, humidity: int, motion: int)

  /** The armed flag (a C char) and the characters of the status buffer. */
  datatype State = State(armed: int, message: seq<char>)

  /** The buffer and flag main starts the loop with. */
  const INITIAL: State := State(UNARMED, "00000\n")

  // ---------------------------------------------------------------------------
  // C strings

  /** strlen: the index of the first NUL, or the whole buffer when it holds none
      (the terminating NUL then sits just past the modelled characters). */
  function StrLen(s: seq<char>): (n: nat)
    ensures n <= |s|
    ensures forall i :: 0 <= i < n ==> s[i] != NUL
    ensures n < |s| ==> s[n] == NUL
  {
    if s == [] || s[0] == NUL then 0 else 1 + StrLen(s[1..])
  }

  /** The text printf sends for the buffer: its longest prefix without a NUL. */
  function CString(s: seq<char>): (c: seq<char>)
    ensures c <= s
    ensures forall i :: 0 <= i < |c| ==> c[i] != NUL
    ensures |c| < |s| ==> s[|c|] == NUL
  {
    s[..StrLen(s)]
  }

  // ---------------------------------------------------------------------------
  // Per-cycle updates, as functions of the state they change

  predicate IsKnownTag(tag: Option<int>, tag1: int, tag2: int) {
    tag.Some? && (tag.value == tag1 || tag.value == tag2)
  }

  /** readRfid: a known tag toggles the flag and writes the armed character. */
  function RfidUpdate(st: State, tag: Option<int>, tag1: int, tag2: int): (st': State)
    requires |st.message| >= MESSAGE_SIZE
    ensures |st'.message| == |st.message|
    ensures forall i :: 0 <= i < |st.message| && i != ARMED_POSN ==> st'.message[i] == st.message[i]
    ensures IsKnownTag(tag, tag1, tag2) && st.armed == UNARMED ==>
              st'.armed == ARMED && st'.message[ARMED_POSN] == '1'
    ensures IsKnownTag(tag, tag1, tag2) && st.armed == ARMED ==>
              st'.armed == UNARMED && st'.message[ARMED_POSN] == '0'
    ensures !IsKnownTag(tag, tag1, tag2) ==> st' == st
    ensures st.armed != ARMED && st.armed != UNARMED ==> st' == st
  {
    if IsKnownTag(tag, tag1, tag2) && st.armed == UNARMED then
      State(ARMED, st.message[ARMED_POSN := '1'])
    else if IsKnownTag(tag, tag1, tag2) && st.armed == ARMED then
      State(UNARMED, st.message[ARMED_POSN := '0'])
    else
      st
  }

  /** readDoorContact: the door character is '1' only for an open door while armed. */
  function DoorUpdate(st: State, contact: int): (st': State)
    requires |st.message| >= MESSAGE_SIZE
    ensures st'.armed == st.armed && |st'.message| == |st.message|
    ensures IsBit(st'.message[DOOR_POSN])
    ensures st'.message[DOOR_POSN] == '1' <==> contact == DOOR_OPEN && st.armed == ARMED
    ensures forall i :: 0 <= i < |st.message| && i != DOOR_POSN ==> st'.message[i] == st.message[i]
  {
    if contact == DOOR_OPEN && st.armed == ARMED then
      State(st.armed, st.message[DOOR_POSN := '1'])
    else
      State(st.armed, st.message[DOOR_POSN := '0'])
  }

  /** readSmokeSensor: the smoke character is '1' exactly above the threshold, armed or not. */
  function SmokeUpdate(message: seq<char>, smoke: int): (m: seq<char>)
    requires |message| >= MESSAGE_SIZE
    ensures |m| == |message| && IsBit(m[SMOKE_POSN])
    ensures m[SMOKE_POSN] == '1' <==> smoke > HIGH_SMOKE_LEVEL
    ensures forall i :: 0 <= i < |message| && i != SMOKE_POSN ==> m[i] == message[i]
  {
    if smoke > HIGH_SMOKE_LEVEL then message[SMOKE_POSN := '1'] else message[SMOKE_POSN := '0']
  }

  /** readHumiditySensor: the humidity character is '1' exactly above the threshold, armed or not. */
  function HumidityUpdate(message: seq<char>, humidity: int): (m: seq<char>)
    requires |message| >= MESSAGE_SIZE
    ensures |m| == |message| && IsBit(m[HUM_POSN])
    ensures m[HUM_POSN] == '1' <==> humidity > HIGH_HUMIDITY
    ensures forall i :: 0 <= i < |message| && i != HUM_POSN ==> m[i] == message[i]
  {
    if humidity > HIGH_HUMIDITY then message[HUM_POSN := '1'] else message[HUM_POSN := '0']
  }

  /** readMotionSensor: the motion character is '1' only for sensed motion while armed. */
  function MotionUpdate(st: State, motion: int): (st': State)
    requires |st.message| >= MESSAGE_SIZE
    ensures st'.armed == st.armed && |st'.message| == |st.message|
    ensures IsBit(st'.message[MOTION_POSN])
    ensures st'.message[MOTION_POSN] == '1' <==> motion == MOTION_SENSED && st.armed == ARMED
    ensures forall i :: 0 <= i < |st.message| && i != MOTION_POSN ==> st'.message[i] == st.message[i]
  {
    if motion == MOTION_SENSED && st.armed == ARMED then
      State(st.armed, st.message[MOTION_POSN := '1'])
    else
      State(st.armed, st.message[MOTION_POSN := '0'])
  }

  /** One pass of main's loop body over the state, in the source's order:
      RFID, door, smoke, humidity, motion. */
  function Step(st: State, rd: Readings, tag1: int, tag2: int): (st': State)
    requires |st.message| >= MESSAGE_SIZE
    ensures |st'.message| == |st.message|
    ensures st'.armed == RfidUpdate(st, rd.tag, tag1, tag2).armed
  {
    var afterRfid := RfidUpdate(st, rd.tag, tag1, tag2);
    var afterDoor := DoorUpdate(afterRfid, rd.contact);
    var afterSmoke := State(afterDoor.armed, SmokeUpdate(afterDoor.message, rd.smoke));
    var afterHumidity := State(afterSmoke.armed, HumidityUpdate(afterSmoke.message, rd.humidity));
    MotionUpdate(afterHumidity, rd.motion)
  }

  /** The state after the cycles for the given readings, oldest first. */
  function Run(st: State, inputs: seq<Readings>, tag1: int, tag2: int): (st': State)
    requires |st.message| >= MESSAGE_SIZE
    ensures |st'.message| == |st.message|
    decreases |inputs|
  {
    if inputs == [] then st
    else Step(Run(st, inputs[..|inputs| - 1], tag1, tag2), inputs[|inputs| - 1], tag1, tag2)
  }

  /** The debug line of each of those cycles, oldest first: the C string of the
      buffer after that cycle, as printf sends it. */
  function Trace(st: State, inputs: seq<Readings>, tag1: int, tag2: int): (lines: seq<seq<char>>)
    requires |st.message| >= MESSAGE_SIZE
    ensures |lines| == |inputs|
    ensures forall i :: 0 <= i < |lines| ==> |lines[i]| <= |st.message|
    decreases |inputs|
  {
    if inputs == [] then []
    else Trace(st, inputs[..|inputs| - 1], tag1, tag2) + [CString(Run(st, inputs, tag1, tag2).message)]
  }

  // ---------------------------------------------------------------------------
  // What a cycle means

  /** The alarms a cycle should report, given the armed flag after the RFID read:
      humidity and smoke always, door and motion only while armed. */
  function Events(armed: int, rd: Readings): Alarms {
    Alarms(rd.humidity > HIGH_HUMIDITY, rd.smoke > HIGH_SMOKE_LEVEL,
           rd.contact == DOOR_OPEN && armed == ARMED,
           rd.motion == MOTION_SENSED && armed == ARMED,
           armed == ARMED)
  }

  /** The state every cycle keeps: a well-formed record whose armed character
      agrees with a flag that is ARMED or UNARMED. */
  predicate Inv(st: State) {
    IsRecord(st.message) &&
    (st.armed == ARMED || st.armed == UNARMED) &&
    (st.message[ARMED_POSN] == '1' <==> st.armed == ARMED)
  }

  /** checkMessage's verdict: the C string is not empty and every character
      before its last one is a bit. */
  predicate MessageValid(s: seq<char>) {
    var n := StrLen(s);
    n > 0 && forall i :: 0 <= i < n - 1 ==> IsBit(s[i])
  }

  /** From a good state, a cycle writes exactly the encoding of the current
      readings and the new flag: nothing of the previous content survives. */
  lemma StepEncodesReadings(st: State, rd: Readings, tag1: int, tag2: int)
    requires Inv(st)
    ensures Step(st, rd, tag1, tag2).message == Encode(Events(Step(st, rd, tag1, tag2).armed, rd))
    ensures Inv(Step(st, rd, tag1, tag2))
  {
  }

  /** Two good states with the same flag lead to the same state, whatever
      their buffers held before. */
  lemma NoStaleValues(st1: State, st2: State, rd: Readings, tag1: int, tag2: int)
    requires Inv(st1) && Inv(st2) && st1.armed == st2.armed
    ensures Step(st1, rd, tag1, tag2) == Step(st2, rd, tag1, tag2)
  {
  }

  /** Every state reached from the initial one keeps the invariant. */
  lemma {:induction false} RunKeepsInv(inputs: seq<Readings>, tag1: int, tag2: int)
    ensures Inv(Run(INITIAL, inputs, tag1, tag2))
    decreases |inputs|
  {
    if inputs != [] {
      RunKeepsInv(inputs[..|inputs| - 1], tag1, tag2);
      StepEncodesReadings(Run(INITIAL, inputs[..|inputs| - 1], tag1, tag2), inputs[|inputs| - 1], tag1, tag2);
    }
  }

  /** The first k + 1 cycles are the first k followed by cycle k. */
  lemma RunExtend(st: State, inputs: seq<Readings>, tag1: int, tag2: int, k: nat)
    requires |st.message| >= MESSAGE_SIZE
    requires k < |inputs|
    ensures Run(st, inputs[..k + 1], tag1, tag2) == Step(Run(st, inputs[..k], tag1, tag2), inputs[k], tag1, tag2)
  {
    var prefix := inputs[..k + 1];
    assert prefix[..k] == inputs[..k];
  }

  /** The k-th debug line is the C string of the buffer after the first k + 1 cycles. */
  lemma {:induction false} TraceAt(st: State, inputs: seq<Readings>, tag1: int, tag2: int, k: nat)
    requires |st.message| >= MESSAGE_SIZE
    requires k < |inputs|
    ensures Trace(st, inputs, tag1, tag2)[k] == CString(Run(st, inputs[..k + 1], tag1, tag2).message)
    decreases |inputs|
  {
    if k < |inputs| - 1 {
      var front := inputs[..|inputs| - 1];
      TraceAt(st, front, tag1, tag2, k);
      assert front[..k + 1] == inputs[..k + 1];
    } else {
      assert inputs[..k + 1] == inputs;
    }
  }

  /** Every line main sends is a well-formed record whose armed character
      tells whether the panel is armed after that cycle. */
  lemma TraceReportsArmed(inputs: seq<Readings>, k: nat)
    requires k < |inputs|
    ensures IsRecord(Trace(INITIAL, inputs, TAG1, TAG2)[k])
    ensures Trace(INITIAL, inputs, TAG1, TAG2)[k][ARMED_POSN] == '1' <==>
              Run(INITIAL, inputs[..k + 1], TAG1, TAG2).armed == ARMED
  {
    TraceAt(INITIAL, inputs, TAG1, TAG2, k);
    RunKeepsInv(inputs[..k + 1], TAG1, TAG2);
    RecordValidates(Run(INITIAL, inputs[..k + 1], TAG1, TAG2).message);
  }

  /** A well-formed record validates and is sent whole. */
  lemma RecordValidates(s: seq<char>)
    requires IsRecord(s)
    ensures StrLen(s) == |s|
    ensures MessageValid(s) && CString(s) == s
  {
  }

  /** On a NUL-free six-character buffer the validator looks at exactly the five
      content characters: the terminator position is never inspected. */
  lemma ValidatorReadsContent(s: seq<char>)
    requires |s| == MESSAGE_SIZE + 1
    requires forall i :: 0 <= i < |s| ==> s[i] != NUL
    ensures MessageValid(s) <==> forall i :: 0 <= i < MESSAGE_SIZE ==> IsBit(s[i])
  {
  }

  /** A content character that is neither '0' nor '1' (and not NUL) makes the
      buffer invalid, whatever the other characters are. */
  lemma CorruptedRecordRejected(s: seq<char>, k: nat)
    requires |s| == MESSAGE_SIZE + 1
    requires forall i :: 0 <= i < |s| ==> s[i] != NUL
    requires k < MESSAGE_SIZE && !IsBit(s[k])
    ensures !MessageValid(s)
  {
    ValidatorReadsContent(s);
  }

  /** A character that is not a bit, with no NUL up to and including the
      position after it, makes any buffer invalid. */
  lemma NonBitRejected(s: seq<char>, p: nat)
    requires p + 1 < |s|
    requires forall i :: 0 <= i <= p + 1 ==> s[i] != NUL
    requires !IsBit(s[p])
    ensures !MessageValid(s)
  {
    assert StrLen(s) > p + 1;
  }

  /** A NUL at position p hides everything from position p - 1 on: the buffer
      validates as soon as the characters before p - 1 are bits, and printf sends
      only the p characters before the NUL. */
  lemma EmbeddedNulHides(s: seq<char>, p: nat)
    requires p < |s| && s[p] == NUL
    requires forall i :: 0 <= i < p ==> s[i] != NUL
    requires p >= 1 && forall i :: 0 <= i < p - 1 ==> IsBit(s[i])
    ensures StrLen(s) == p
    ensures MessageValid(s) && CString(s) == s[..p]
  {
  }

  /** An instance: a NUL at position 2 makes this buffer validate, whatever
      follows it, and printf sends only "00". */
  lemma EmbeddedNulAccepted()
    ensures MessageValid(['0', '0', NUL, '0', '0', '\n'])
    ensures CString(['0', '0', NUL, '0', '0', '\n']) == "00"
  {
    var s := ['0', '0', NUL, '0', '0', '\n'];
    EmbeddedNulHides(s, 2);
  }

  // ---------------------------------------------------------------------------
  // The source's operations on the buffer

  method ReadRfid(armed: int, messageOut: array<char>, tag: Option<int>, tag1: int, tag2: int)
    returns (armedOut: int)
    requires messageOut.Length >= MESSAGE_SIZE
    modifies messageOut
    ensures State(armedOut, messageOut[..]) == RfidUpdate(State(armed, old(messageOut[..])), tag, tag1, tag2)
  {
    armedOut := armed;
    if tag.Some? {
      var readTag := tag.value;
      if (readTag == tag1 || readTag == tag2) && armed == UNARMED {
        armedOut := ARMED;
        messageOut[ARMED_POSN] := '1';
      } else if (readTag == tag1 || readTag == tag2) && armed == ARMED {
        armedOut := UNARMED;
        messageOut[ARMED_POSN] := '0';
      }
    }
  }

  method ReadDoorContact(armed: int, messageOut: array<char>, contact: int) returns (armedOut: int)
    requires messageOut.Length >= MESSAGE_SIZE
    modifies messageOut
    ensures State(armedOut, messageOut[..]) == DoorUpdate(State(armed, old(messageOut[..])), contact)
  {
    if contact == DOOR_OPEN && armed == ARMED {
      messageOut[DOOR_POSN] := '1';
    } else {
      messageOut[DOOR_POSN] := '0';
    }
    armedOut := armed;
  }

  method ReadSmokeSensor(messageOut: array<char>, smoke: int)
    requires messageOut.Length >= MESSAGE_SIZE
    modifies messageOut
    ensures messageOut[..] == SmokeUpdate(old(messageOut[..]), smoke)
  {
    if smoke > HIGH_SMOKE_LEVEL {
      messageOut[SMOKE_POSN] := '1';
    } else {
      messageOut[SMOKE_POSN] := '0';
    }
  }

  method ReadHumiditySensor(messageOut: array<char>, humidity: int)
    requires messageOut.Length >= MESSAGE_SIZE
    modifies messageOut
    ensures messageOut[..] == HumidityUpdate(old(messageOut[..]), humidity)
  {
    if humidity > HIGH_HUMIDITY {
      messageOut[HUM_POSN] := '1';
    } else {
      messageOut[HUM_POSN] := '0';
    }
  }

  method ReadMotionSensor(armed: int, messageOut: array<char>, motion: int) returns (armedOut: int)
    requires messageOut.Length >= MESSAGE_SIZE
    modifies messageOut
    ensures State(armedOut, messageOut[..]) == MotionUpdate(State(armed, old(messageOut[..])), motion)
  {
    if motion == MOTION_SENSED && armed == ARMED {
      messageOut[MOTION_POSN] := '1';
    } else {
      messageOut[MOTION_POSN] := '0';
    }
    armedOut := armed;
  }

  /** checkMessage: scans the C string up to, not including, its last character
      and rejects at the first character that is not a bit. */
  method CheckMessage(messageOut: array<char>) returns (valid: bool)
    requires messageOut.Length <= SIZE_MAX
    ensures valid <==> MessageValid(messageOut[..])
  {
    var n := StrLen(messageOut[..]);
    // strlen(messageOut) - 1 is computed in size_t, so an empty string wraps to SIZE_MAX
    var bound := (n - 1) % (SIZE_MAX + 1);
    var i := 0;
    while i < bound
      invariant n > 0 ==> i <= n - 1
      invariant n == 0 ==> i == 0
      invariant forall j :: 0 <= j < i ==> IsBit(messageOut[j])
      decreases bound - i
    {
      // past the array's end the C string has its terminating NUL
      var c := if i < messageOut.Length then messageOut[i] else NUL;
      if !(c == '1' || c == '0') {
        return false;
      }
      i := i + 1;
    }
    return true;
  }

  /** One iteration of main's loop: the five updates, the debug send of the
      buffer, and the primary send only when the buffer validates. */
  method ControllerCycle(armed: int, statusMessage: array<char>, rd: Readings, tag1: int, tag2: int)
    returns (armedOut: int, debugLine: seq<char>, primaryLines: seq<seq<char>>)
    requires MESSAGE_SIZE <= statusMessage.Length <= SIZE_MAX
    modifies statusMessage
    ensures State(armedOut, statusMessage[..]) == Step(State(armed, old(statusMessage[..])), rd, tag1, tag2)
    ensures debugLine == CString(statusMessage[..])
    ensures primaryLines == if MessageValid(statusMessage[..]) then [CString(statusMessage[..])] else []
  {
    armedOut := ReadRfid(armed, statusMessage, rd.tag, tag1, tag2);
    armedOut := ReadDoorContact(armedOut, statusMessage, rd.contact);
    ReadSmokeSensor(statusMessage, rd.smoke);
    ReadHumiditySensor(statusMessage, rd.humidity);
    armedOut := ReadMotionSensor(armedOut, statusMessage, rd.motion);
    debugLine := CString(statusMessage[..]);
    var isValid := CheckMessage(statusMessage);
    if isValid {
      primaryLines := [CString(statusMessage[..])];
    } else {
      primaryLines := [];
    }
  }

  /** main, run for the given readings instead of forever: returns what the
      debug and the primary channel were sent. Every cycle's record is
      well formed, so nothing is ever dropped from the primary channel. */
  method RunController(inputs: seq<Readings>) returns (debug: seq<seq<char>>, primary: seq<seq<char>>)
    ensures debug == Trace(INITIAL, inputs, TAG1, TAG2)
    ensures primary == debug
  {
    var tag1 := TAG1;
    var tag2 := TAG2;
    var statusMessage := new char[] ['0', '0', '0', '0', '0', '\n'];
    var armed := UNARMED;
    assert statusMessage[..] == INITIAL.message;
    debug, primary := [], [];
    for k := 0 to |inputs|
      invariant statusMessage.Length == MESSAGE_SIZE + 1
      invariant State(armed, statusMessage[..]) == Run(INITIAL, inputs[..k], tag1, tag2)
      invariant debug == Trace(INITIAL, inputs[..k], tag1, tag2)
      invariant primary == debug
    {
      ghost var prefix := inputs[..k + 1];
      assert prefix[..k] == inputs[..k];
      RunKeepsInv(prefix, tag1, tag2);
      var line, sent;
      armed, line, sent := ControllerCycle(armed, statusMessage, inputs[k], tag1, tag2);
      RecordValidates(statusMessage[..]);
      debug := debug + [line];
      primary := primary + sent;
    }
    assert inputs[..|inputs|] == inputs;
  }
}
