// The room carried in front of the caller's name, "<len>-<room><name>":
// written by the SIP proxy in the From header (section 20.20 of RFC 3261),
// read by the gateway when the call is established and by its launcher.
module DisplayName {
  import opened Text
  import LikePattern

  // ---------------------------------------------------------------- writing

  function Unquoted(name: string): string { LikePattern.Replace(name, '"', "") }

  // request_gw.handler, without the quotes that delimit the header's string.
  function Encode(room: string, displayName: string): string {
    Decimal(|room|) + "-" + room + Unquoted(displayName)
  }

  // ---------------------------------------------------------------- reading

  // text.split("-", 1): the part before the first dash, and the rest if any.
  function BeforeDash(text: string): string {
    match Position(text, '-') case None => text case Some(i) => text[..i]
  }

  function AfterDash(text: string): Option<string> {
    match Position(text, '-') case None => None case Some(i) => Some(text[i + 1..])
  }

  // int(text): blanks around, an optional plus sign, digits.
  function ParseInt(text: string): Option<nat> {
    var t := Strip(text);
    var digits := if t != "" && t[0] == '+' then t[1..] else t;
    if digits != "" && AllDigits(digits) then Some(Value(digits)) else None
  }

  function Take(s: string, n: nat): string { if n <= |s| then s[..n] else s }

  function Drop(s: string, n: nat): string { if n <= |s| then s[n..] else "" }

  datatype Decoded = Decoded(mixedId: Option<string>, name: string)

  // The gateway's reading; no prefix leaves the room alone and keeps the name whole.
  function Decode(text: string): Decoded {
    match (ParseInt(BeforeDash(text)), AfterDash(text))
    case (Some(n), Some(rest)) => Decoded(Some(Take(rest, n)), Drop(rest, n))
    case _ => Decoded(None, text)
  }

  // HTTPLauncher.parseDisplayName.
  function ParseDisplayName(raw: string): string {
    var value := Strip(raw);
    match (ParseInt(BeforeDash(value)), AfterDash(value))
    case (Some(n), Some(rest)) => Strip(Drop(rest, n))
    case _ => value
  }

  // The room and name of the IVR object, written as events arrive.
  class Ivr {
    var mixedId: string
    var name: string

    // CALL_ESTABLISHED. `peer` is the display name of the event when it has
    // one; a name left empty is replaced by the user part of the peer's URI.
    method OnEstablished(peer: Option<string>, uriUser: string)
      modifies this
      ensures peer.None? ==> name == uriUser && mixedId == old(mixedId)
      ensures peer.Some? ==> name == if Decode(peer.value).name == "" then uriUser else Decode(peer.value).name
      ensures peer.Some? ==> mixedId == match Decode(peer.value).mixedId case Some(id) => id case None => old(mixedId)
    {
      var displayName := "";
      if peer.Some? {
        var roomLen, rest := ParseInt(BeforeDash(peer.value)), AfterDash(peer.value);
        if roomLen.Some? && rest.Some? {
          mixedId := Take(rest.value, roomLen.value);
          displayName := Drop(rest.value, roomLen.value);
        } else {
          displayName := peer.value;
        }
      }
      name := if displayName == "" then uriUser else displayName;
    }
  }

  // ------------------------------------------------------------- round trips

  lemma {:induction false} PrefixOfEncoded(digits: string, tail: string)
    requires digits != "" && AllDigits(digits)
    ensures BeforeDash(digits + "-" + tail) == digits
    ensures AfterDash(digits + "-" + tail) == Some(tail)
    ensures ParseInt(digits) == Some(Value(digits))
  {
    var s := digits + "-" + tail;
    assert s[|digits|] == '-' && forall j :: 0 <= j < |digits| ==> s[j] == digits[j];
    PositionIs(s, '-', |digits|);
    assert s[..|digits|] == digits && s[|digits| + 1..] == tail;
    assert TrimRight(digits) == digits && TrimLeft(digits) == digits;
  }

  // Dashes and digits in the room or the name change nothing.
  lemma EncodeDecode(room: string, displayName: string)
    ensures Decode(Encode(room, displayName)) == Decoded(Some(room), Unquoted(displayName))
  {
    var name := Unquoted(displayName);
    assert Encode(room, displayName) == Decimal(|room|) + "-" + (room + name);
    PrefixOfEncoded(Decimal(|room|), room + name);
    DecimalRoundTrip(|room|);
    assert (room + name)[..|room|] == room && (room + name)[|room|..] == name;
  }

  // The length is read exactly when what stands before the dash is a number in
  // digits, with blanks around it or a plus sign before it.
  lemma ReadsLength(text: string)
    ensures ParseInt(text).Some? <==> exists sign, digits :: IsLength(Strip(text), sign, digits)
    ensures forall sign, digits :: IsLength(Strip(text), sign, digits) ==> ParseInt(text) == Some(Value(digits))
  {
    var t := Strip(text);
    if ParseInt(text).Some? {
      var sign, digits := if t[0] == '+' then "+" else "", if t[0] == '+' then t[1..] else t;
      assert IsLength(t, sign, digits);
    }
    forall sign, digits | IsLength(t, sign, digits)
      ensures ParseInt(text) == Some(Value(digits))
    {
      assert sign == "+" ==> t[1..] == digits;
      assert sign == "" ==> t == digits;
    }
  }

  ghost predicate IsLength(t: string, sign: string, digits: string) {
    (sign == "" || sign == "+") && digits != "" && AllDigits(digits) && t == sign + digits
  }

  // A name that carries no room, having no dash, or a character before it that
  // no number has, is kept whole, trimmed by the launcher.
  lemma PlainName(name: string, i: nat)
    requires i < |name| && !IsDigit(name[i]) && !IsSpace(name[i]) && name[i] != '+' && '-' !in name[..i + 1]
    ensures Decode(name) == Decoded(None, name)
    ensures ParseDisplayName(name) == Strip(name)
  {
    NoNumberBefore(name, i);
    StripHolds(name, i);
    var k :| 0 <= k < |Strip(name)| && Strip(name)[k] == name[i] && '-' !in Strip(name)[..k + 1];
    NoNumberBefore(Strip(name), k);
  }

  lemma NoNumberBefore(text: string, i: nat)
    requires i < |text| && !IsDigit(text[i]) && !IsSpace(text[i]) && text[i] != '+' && '-' !in text[..i + 1]
    ensures ParseInt(BeforeDash(text)).None?
  {
    var before := BeforeDash(text);
    assert forall j :: 0 <= j <= i ==> text[j] == text[..i + 1][j];
    assert i < |before| && before[i] == text[i];
    StripHolds(before, i);
    var k :| 0 <= k < |Strip(before)| && Strip(before)[k] == before[i];
    assert k > 0 ==> Strip(before)[1..][k - 1] == before[i];
  }

  // Stripping keeps a character that is not blank, and adds no dash before it.
  lemma StripHolds(text: string, i: nat)
    requires i < |text| && !IsSpace(text[i])
    ensures exists k :: 0 <= k < |Strip(text)| && Strip(text)[k] == text[i]
                        && ('-' !in text[..i + 1] ==> '-' !in Strip(text)[..k + 1])
  {
    var right := Trailing(text, |text|);
    var left := Leading(text[..right], 0);
    assert i < right && text[..right][i] == text[i];
    assert left <= i;
    var k := i - left;
    assert Strip(text)[k] == text[i];
    assert forall j :: 0 <= j <= k ==> Strip(text)[j] == text[left + j] == text[..i + 1][left + j];
  }

  // The quotes are what is removed of the name, and nothing else.
  lemma {:induction false} UnquotedKeeps(name: string)
    ensures '"' !in Unquoted(name)
    ensures '"' !in name ==> Unquoted(name) == name
    ensures multiset(Unquoted(name)) == multiset(name)['"' := 0]
  {
    if name != "" {
      UnquotedKeeps(name[1..]);
      assert name == [name[0]] + name[1..];
    }
  }

  lemma {:induction false} TrimRightConcat(a: string, b: string)
    ensures TrimRight(b) != "" ==> TrimRight(a + b) == a + TrimRight(b)
    ensures TrimRight(b) == "" ==> TrimRight(a + b) == TrimRight(a)
  {
    if b == "" {
      assert a + b == a;
    } else if IsSpace(b[|b| - 1]) {
      assert (a + b)[..|a + b| - 1] == a + b[..|b| - 1];
      TrimRightConcat(a, b[..|b| - 1]);
    }
  }

  // What is left of the encoded text once its blanks are stripped.
  function Kept(room: string, name: string): string {
    if TrimRight(name) != "" then room + TrimRight(name) else TrimRight(room)
  }

  lemma {:induction false} TrimAfterSolid(prefix: string, s: string)
    requires prefix != "" && !IsSpace(prefix[|prefix| - 1])
    ensures TrimRight(prefix + s) == prefix + TrimRight(s)
  {
    TrimRightConcat(prefix, s);
    if TrimRight(s) == "" {
      assert TrimRight(prefix) == prefix == prefix + TrimRight(s);
    }
  }

  lemma StripEncoded(digits: string, room: string, name: string)
    requires digits != "" && AllDigits(digits)
    ensures Strip(digits + "-" + room + name) == digits + "-" + Kept(room, name)
  {
    var prefix := digits + "-";
    assert digits + "-" + room + name == prefix + (room + name);
    assert prefix[|prefix| - 1] == '-';
    TrimAfterSolid(prefix, room + name);
    TrimRightConcat(room, name);
    StartsSolid(prefix + Kept(room, name), digits[0]);
  }

  lemma StartsSolid(s: string, c: char)
    requires s != "" && s[0] == c && !IsSpace(c)
    ensures TrimLeft(s) == s
  {
  }

  // Both readers agree: the launcher shows the name the gateway decoded, trimmed.
  lemma EncodeParse(room: string, displayName: string)
    ensures ParseDisplayName(Encode(room, displayName)) == Strip(Unquoted(displayName))
  {
    var digits, name := Decimal(|room|), Unquoted(displayName);
    StripEncoded(digits, room, name);
    PrefixOfEncoded(digits, Kept(room, name));
    DecimalRoundTrip(|room|);
    StripAfterTrim(name);
    if TrimRight(name) != "" {
      assert Kept(room, name)[|room|..] == TrimRight(name);
    } else {
      assert Drop(Kept(room, name), |room|) == "";
    }
  }

  lemma StripAfterTrim(name: string)
    ensures Strip(TrimRight(name)) == Strip(name)
    ensures TrimRight(name) == "" ==> Strip(name) == ""
  {
  }
}
