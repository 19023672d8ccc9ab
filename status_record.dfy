/** The status record that the panel controller sends to the web server over the
    serial link: five characters, each '0' or '1', in fixed positions, followed by
    a newline that is not part of the content. */
module StatusRecord {

  const MESSAGE_SIZE: nat := 5
  const HUM_POSN: nat := 0
  const SMOKE_POSN: nat := 1
  const DOOR_POSN: nat := 2
  const MOTION_POSN: nat := 3
  const ARMED_POSN: nat := 4
  const TERMINATOR: char := '\n'

  /** What one record means: which alarms are raised and whether the panel is armed. */
  datatype Alarms = Alarms(humidity: bool, smoke: bool, door: bool, motion: bool, armed: bool)

  predicate IsBit(c: char) {
    c == '0' || c == '1'
  }

  function Bit(b: bool): (c: char)
    ensures IsBit(c) && (c == '1' <==> b)
  {
    if b then '1' else '0'
  }

  /** A well-formed record: five bits in the content positions, then the terminator. */
  predicate IsRecord(s: seq<char>) {
    |s| == MESSAGE_SIZE + 1 && s[MESSAGE_SIZE] == TERMINATOR &&
    forall i :: 0 <= i < MESSAGE_SIZE ==> IsBit(s[i])
  }

  /** Reads the meaning back out of a well-formed record. */
  function Parse(s: seq<char>): Alarms
    requires IsRecord(s)
  {
    Alarms(s[HUM_POSN] == '1', s[SMOKE_POSN] == '1', s[DOOR_POSN] == '1',
           s[MOTION_POSN] == '1', s[ARMED_POSN] == '1')
  }

  /** The record that stands for the given alarms; Parse undoes it. */
  function Encode(a: Alarms): (s: seq<char>)
    ensures IsRecord(s)
    ensures Parse(s) == a
  {
    [Bit(a.humidity), Bit(a.smoke), Bit(a.door), Bit(a.motion), Bit(a.armed), TERMINATOR]
  }

  /** Every well-formed record is the encoding of exactly the alarms it parses to. */
  lemma EncodeParse(s: seq<char>)
    requires IsRecord(s)
    ensures Encode(Parse(s)) == s
  {
  }
}
