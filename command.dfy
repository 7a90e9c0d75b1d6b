/** The payload decoder of the inbound-data callback: which LED command, if
    any, an MQTT message on the control topic carries. */
module Command {
  import opened Ascii

  datatype Command = TurnOn | TurnOff | Ignore

  /** The four tokens the decoder compares against, all lower case. */
  const TokenOn: seq<byte> := Bytes("on")
  const TokenOne: seq<byte> := Bytes("1")
  const TokenOff: seq<byte> := Bytes("off")
  const TokenZero: seq<byte> := Bytes("0")

  /** The text the callback compares: the payload copied into a buffer with a
      NUL after it, read as a C string. */
  function Text(payload: seq<byte>): (r: seq<byte>)
    ensures 0 !in r
    ensures 0 !in payload ==> r == payload
    ensures r <= payload && (|r| < |payload| ==> payload[|r|] == 0)
  {
    CStringOfPrefixAll(payload);
    CString(payload + [0])
  }

  /** Helper for Text: the C string of `payload + [0]` is a prefix of the
      payload, and all of it when the payload holds no NUL. */
  lemma CStringOfPrefixAll(payload: seq<byte>)
    ensures CString(payload + [0]) <= payload
    ensures 0 !in payload ==> CString(payload + [0]) == payload
  {
  }

  /** The `strcasecmp` chain of the callback, applied in the source's order:
      `on` / `1` first, then `off` / `0`. */
  function Decode(payload: seq<byte>): (r: Command)
    ensures r == TurnOn <==>
      SameIgnoringCase(Text(payload), TokenOn) || SameIgnoringCase(Text(payload), TokenOne)
    ensures r == TurnOff <==>
      SameIgnoringCase(Text(payload), TokenOff) || SameIgnoringCase(Text(payload), TokenZero)
  {
    var msg := payload + [0];
    CStringOfPrefix(TokenOn, []);
    CStringOfPrefix(TokenOne, []);
    CStringOfPrefix(TokenOff, []);
    CStringOfPrefix(TokenZero, []);
    assert TokenOn + [0] + [] == TokenOn + [0];
    assert TokenOne + [0] + [] == TokenOne + [0];
    assert TokenOff + [0] + [] == TokenOff + [0];
    assert TokenZero + [0] + [] == TokenZero + [0];
    if StrCaseEqual(msg, TokenOn + [0]) || StrCaseEqual(msg, TokenOne + [0]) then
      TurnOn
    else if StrCaseEqual(msg, TokenOff + [0]) || StrCaseEqual(msg, TokenZero + [0]) then
      TurnOff
    else
      Ignore
  }

  /** Every spelling of `on`, in any mix of case, turns the LED on. */
  lemma AnyCaseOfOn(a: byte, b: byte)
    requires Lower(a) == 'o' as byte && Lower(b) == 'n' as byte
    ensures Decode([a, b]) == TurnOn
  {
  }

  /** Every spelling of `off`, in any mix of case, turns the LED off. */
  lemma AnyCaseOfOff(a: byte, b: byte, c: byte)
    requires Lower(a) == 'o' as byte && Lower(b) == 'f' as byte && Lower(c) == 'f' as byte
    ensures Decode([a, b, c]) == TurnOff
  {
  }

  /** No trimming and no prefix matching: a NUL-free payload of four or more
      bytes is never a command. */
  lemma LongPayloadIgnored(payload: seq<byte>)
    requires 0 !in payload && |payload| > 3
    ensures Decode(payload) == Ignore
  {
  }

  /** `onx` and ` on` are ignored. */
  lemma NearMissesIgnored()
    ensures Decode(Bytes("onx")) == Ignore
    ensures Decode(Bytes(" on")) == Ignore
  {
  }

  /** The comparison stops at the first NUL of the payload: whatever follows
      it makes no difference. */
  lemma {:induction false} StopsAtNul(text: seq<byte>, rest: seq<byte>)
    requires 0 !in text
    ensures Decode(text + [0] + rest) == Decode(text)
  {
    CStringOfPrefix(text, rest + [0]);
    assert text + [0] + rest + [0] == text + [0] + (rest + [0]);
  }
}
