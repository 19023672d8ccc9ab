/** The web server's side of the serial link (server.py): readSerialPort turns
    the received line into the five entries of the status dictionary that the
    home page shows. The serial port is replaced by the number of waiting bytes
    and the line readline would return. */
module Server {

  const FLOOD_STATUS: string := "floodStatus"
  const SMOKE_STATUS: string := "smokeStatus"
  const DOOR_STATUS: string := "doorStatus"
  const MOTION_STATUS: string := "motionStatus"
  const ARMED_STATUS: string := "armedStatus"

  /** The keys statusDict is declared with. */
  const STATUS_KEYS: set<string> := {FLOOD_STATUS, SMOKE_STATUS, DOOR_STATUS, MOTION_STATUS, ARMED_STATUS}

  const ALARM: string := "ALARM"
  const NORMAL: string := "Normal"
  const ARMED_TEXT: string := "Armed"
  const UNARMED_TEXT: string := "Unarmed"

  /** readSerialPort reads the first five characters of the line. */
  const FIELDS: nat := 5

  /** statusDict as declared: the five keys, each mapped to the empty string. */
  function InitialStatus(): (d: map<string, string>)
    ensures d.Keys == STATUS_KEYS
    ensures forall key :: key in d ==> d[key] == ""
  {
    map[FLOOD_STATUS := "", SMOKE_STATUS := "", DOOR_STATUS := "", MOTION_STATUS := "", ARMED_STATUS := ""]
  }

  /** Each status key holds one of the two strings readSerialPort writes for it. */
  predicate Decoded(d: map<string, string>) {
    FLOOD_STATUS in d && (d[FLOOD_STATUS] == ALARM || d[FLOOD_STATUS] == NORMAL) &&
    SMOKE_STATUS in d && (d[SMOKE_STATUS] == ALARM || d[SMOKE_STATUS] == NORMAL) &&
    DOOR_STATUS in d && (d[DOOR_STATUS] == ALARM || d[DOOR_STATUS] == NORMAL) &&
    MOTION_STATUS in d && (d[MOTION_STATUS] == ALARM || d[MOTION_STATUS] == NORMAL) &&
    ARMED_STATUS in d && (d[ARMED_STATUS] == ARMED_TEXT || d[ARMED_STATUS] == UNARMED_TEXT)
  }

  /** The dictionary after readSerialPort has taken in one line: each status key
      reports an alarm (or armed) exactly when its character is '1', and no other
      key is touched. */
  function ApplyLine(d: map<string, string>, line: string): (d': map<string, string>)
    requires |line| >= FIELDS
    ensures d'.Keys == d.Keys + STATUS_KEYS
    ensures forall key :: key in d && key !in STATUS_KEYS ==> d'[key] == d[key]
    ensures Decoded(d')
    ensures d'[FLOOD_STATUS] == ALARM <==> line[0] == '1'
    ensures d'[SMOKE_STATUS] == ALARM <==> line[1] == '1'
    ensures d'[DOOR_STATUS] == ALARM <==> line[2] == '1'
    ensures d'[MOTION_STATUS] == ALARM <==> line[3] == '1'
    ensures d'[ARMED_STATUS] == ARMED_TEXT <==> line[4] == '1'
  {
    d[FLOOD_STATUS := if line[0] == '1' then ALARM else NORMAL]
     [SMOKE_STATUS := if line[1] == '1' then ALARM else NORMAL]
     [DOOR_STATUS := if line[2] == '1' then ALARM else NORMAL]
     [MOTION_STATUS := if line[3] == '1' then ALARM else NORMAL]
     [ARMED_STATUS := if line[4] == '1' then ARMED_TEXT else UNARMED_TEXT]
  }

  /** Once a line has been decoded, decoding another line leaves the key set
      exactly as declared and every entry one of its two strings. */
  lemma ApplyLineKeepsKeys(d: map<string, string>, line: string)
    requires d.Keys == STATUS_KEYS
    requires |line| >= FIELDS
    ensures ApplyLine(d, line).Keys == STATUS_KEYS
    ensures Decoded(ApplyLine(d, line))
  {
  }

  class StatusServer {
    var statusDict: map<string, string>

    ghost predicate Valid()
      reads this
    {
      statusDict.Keys == STATUS_KEYS
    }

    constructor ()
      ensures Valid() && statusDict == InitialStatus()
    {
      statusDict := InitialStatus();
    }

    /** readSerialPort: with no bytes waiting nothing changes; otherwise the line
        is decoded into the dictionary one entry at a time. */
    method ReadSerialPort(inWaiting: int, line: string)
      requires Valid()
      requires inWaiting > 0 ==> |line| >= FIELDS
      modifies this
      ensures Valid()
      ensures statusDict == if inWaiting > 0 then ApplyLine(old(statusDict), line) else old(statusDict)
      ensures inWaiting > 0 ==> Decoded(statusDict)
    {
      if inWaiting > 0 {
        statusDict := statusDict[FLOOD_STATUS := if line[0] == '1' then ALARM else NORMAL];
        statusDict := statusDict[SMOKE_STATUS := if line[1] == '1' then ALARM else NORMAL];
        statusDict := statusDict[DOOR_STATUS := if line[2] == '1' then ALARM else NORMAL];
        statusDict := statusDict[MOTION_STATUS := if line[3] == '1' then ALARM else NORMAL];
        statusDict := statusDict[ARMED_STATUS := if line[4] == '1' then ARMED_TEXT else UNARMED_TEXT];
      }
    }
  }
}
