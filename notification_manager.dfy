/** The two deterministic pieces of the notification manager: turning the
    base64url server key (section 5 of RFC 4648) into standard padded base64
    (section 4) and copying the decoded characters into a byte array, and
    the subscribe button's decision table. */
module NotificationManager {
  import opened Types

  /** A Uint8Array element. */
  type Byte = b: int | 0 <= b < 256

  /** `(4 - length % 4) % 4`. */
  function PaddingLength(n: nat): (r: nat)
    ensures r <= 3 && (n + r) % 4 == 0
  {
    (4 - n % 4) % 4
  }

  /** `s.replace(/x/g, y)` for single characters. */
  function ReplaceAll(s: string, x: char, y: char): (r: string)
    ensures |r| == |s|
    ensures forall i :: 0 <= i < |s| ==> r[i] == if s[i] == x then y else s[i]
  {
    seq(|s|, i requires 0 <= i < |s| => if s[i] == x then y else s[i])
  }

  /** The alphabet translation of one character, base64url to base64. */
  function StandardChar(c: char): char
  {
    if c == '-' then '+' else if c == '_' then '/' else c
  }

  /** Pad with '=' to a multiple of four, then replace '-' and '_'. */
  function ToStandardBase64(s: string): (r: string)
    ensures |r| == |s| + PaddingLength(|s|) && |r| % 4 == 0
    ensures forall i :: 0 <= i < |s| ==> r[i] == StandardChar(s[i])
    ensures forall i :: |s| <= i < |r| ==> r[i] == '='
  {
    ReplaceAll(ReplaceAll(s + seq(PaddingLength(|s|), _ => '='), '-', '+'), '_', '/')
  }

  /** The reverse translation, base64 to base64url. */
  function UrlChar(c: char): char
  {
    if c == '+' then '-' else if c == '/' then '_' else c
  }

  /** A base64url string as the key is given: no '+', '/' or '='. */
  predicate IsUrlSafe(s: string)
  {
    forall i :: 0 <= i < |s| ==> s[i] != '+' && s[i] != '/' && s[i] != '='
  }

  /** Translating back and dropping the padding recovers the url-safe input. */
  lemma StandardBase64RoundTrip(s: string)
    requires IsUrlSafe(s)
    ensures var r := ToStandardBase64(s);
      (forall i :: 0 <= i < |s| ==> UrlChar(r[i]) == s[i]) && r[|s|..] == seq(PaddingLength(|s|), _ => '=')
  {
  }

  /** Uint8Array stores a number modulo 256. */
  function ToUint8(code: int): Byte
  {
    code % 256
  }

  /** `new Uint8Array(rawData.length)` filled with `rawData.charCodeAt(i)`. */
  method CharCodesToBytes(raw: string) returns (out: array<Byte>)
    ensures fresh(out) && out.Length == |raw|
    ensures forall i :: 0 <= i < |raw| ==> out[i] == ToUint8(raw[i] as int)
  {
    out := new Byte[|raw|];
    var i := 0;
    while i < |raw|
      invariant 0 <= i <= |raw|
      invariant forall k :: 0 <= k < i ==> out[k] == ToUint8(raw[k] as int)
    {
      out[i] := ToUint8(raw[i] as int);
      i := i + 1;
    }
  }

  /** `urlBase64ToUint8Array` with `window.atob` as a parameter: None is the
      exception atob throws on text that is not base64. */
  method UrlBase64ToBytes(s: string, atob: string -> Option<string>) returns (out: Option<array<Byte>>)
    ensures out.None? <==> atob(ToStandardBase64(s)).None?
    ensures out.Some? ==> fresh(out.value)
    ensures out.Some? ==> out.value.Length == |atob(ToStandardBase64(s)).value|
    ensures out.Some? ==> forall i :: 0 <= i < out.value.Length ==>
              out.value[i] == ToUint8(atob(ToStandardBase64(s)).value[i] as int)
  {
    var decoded := atob(ToStandardBase64(s));
    if decoded.None? {
      return None;
    }
    var bytes := CharCodesToBytes(decoded.value);
    out := Some(bytes);
  }

  /** `Notification.permission`. */
  datatype Permission = granted | denied | default

  /** The four button texts: blocked, updates active, subscribe failed, get updates. */
  datatype ButtonLabel = NotificationsBlocked | UpdatesActive | SubscribeFailed | GetUpdates

  datatype ButtonContent = ButtonContent(text: ButtonLabel, disabled: bool)

  /** `getButtonContent`. */
  function GetButtonContent(permission: Permission, isSubscribed: bool): (r: ButtonContent)
    ensures r.disabled <==> permission == denied || isSubscribed
    ensures permission == denied ==> r.text == NotificationsBlocked
    ensures r.text == UpdatesActive <==> permission != denied && isSubscribed
    ensures permission == granted && !isSubscribed ==> r.text == SubscribeFailed
    ensures permission == default && !isSubscribed ==> r.text == GetUpdates
  {
    if permission == denied then ButtonContent(NotificationsBlocked, true)
    else if isSubscribed then ButtonContent(UpdatesActive, true)
    else if permission == granted then ButtonContent(SubscribeFailed, false)
    else ButtonContent(GetUpdates, false)
  }
}
