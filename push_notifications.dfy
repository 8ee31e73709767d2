/** The push-notification hook: the VAPID key conversion from the
    URL-safe base64 alphabet (section 5 of RFC 4648) to the standard one
    (section 4), padded and decoded into bytes, and the permission state
    that says whether notifications are on. The browser's base64 decoder
    and permission prompt are inputs. */
module PushNotifications {
  import opened Common

  newtype Byte = x: int | 0 <= x < 256

  /** `'='.repeat((4 - n % 4) % 4)`: the number of '=' added. */
  function Padding(n: nat): (p: nat)
    ensures p <= 3
    ensures (n + p) % 4 == 0
    ensures p == 0 <==> n % 4 == 0
  {
    (4 - n % 4) % 4
  }

  /** Among the paddings that fill a group of four, it is the shortest. */
  lemma PaddingIsShortest(n: nat, q: nat)
    requires (n + q) % 4 == 0
    ensures Padding(n) <= q
  {
  }

  /** One character of `.replace(/\-/g, '+').replace(/_/g, '/')`. */
  function TranslateChar(c: char): char
  {
    if c == '-' then '+' else if c == '_' then '/' else c
  }

  function Translate(s: string): (t: string)
    ensures |t| == |s|
    ensures forall i :: 0 <= i < |s| ==> t[i] == TranslateChar(s[i])
  {
    seq(|s|, i requires 0 <= i < |s| => TranslateChar(s[i]))
  }

  /** The text given to the decoder: the key, its padding, translated. */
  function Base64Of(key: string): (b: string)
    ensures |b| % 4 == 0 && |key| <= |b| <= |key| + 3
    ensures forall i :: |key| <= i < |b| ==> b[i] == '='
    ensures forall i :: 0 <= i < |b| ==> b[i] != '-' && b[i] != '_'
  {
    var padded := key + seq(Padding(|key|), _ => '=');
    Translate(padded)
  }

  predicate IsAlnum(c: char)
  {
    'A' <= c <= 'Z' || 'a' <= c <= 'z' || '0' <= c <= '9'
  }

  /** The alphabet of section 5 of RFC 4648 ("base64url"). */
  predicate UrlSafeChar(c: char)
  {
    IsAlnum(c) || c == '-' || c == '_'
  }

  /** The alphabet of section 4 of RFC 4648, with its pad character. */
  predicate StandardChar(c: char)
  {
    IsAlnum(c) || c == '+' || c == '/' || c == '='
  }

  /** The reverse translation, '+' to '-' and '/' to '_'. */
  function UntranslateChar(c: char): char
  {
    if c == '+' then '-' else if c == '/' then '_' else c
  }

  /** A key in the URL-safe alphabet becomes text in the standard
      alphabet, and nothing is lost: translating back gives the key and
      its padding again. */
  lemma TranslationIsAlphabetChange(key: string)
    requires forall i :: 0 <= i < |key| ==> UrlSafeChar(key[i])
    ensures forall i :: 0 <= i < |Base64Of(key)| ==> StandardChar(Base64Of(key)[i])
    ensures forall i :: 0 <= i < |key| ==> UntranslateChar(Base64Of(key)[i]) == key[i]
  {
  }

  /** `Uint8Array` element assignment keeps the low eight bits of the
      character code (ToUint8). */
  function CharByte(c: char): (b: Byte)
    ensures (c as int) < 256 ==> b as int == c as int
  {
    ((c as int) % 256) as Byte
  }

  /** The bytes of a decoded string, one per character. */
  function Bytes(raw: string): (r: seq<Byte>)
    ensures |r| == |raw|
  {
    seq(|raw|, i requires 0 <= i < |raw| => CharByte(raw[i]))
  }

  /** urlBase64ToUint8Array. `atob` stands for the browser's decoder;
      None is the exception it throws on text that is not base64, which
      this function does not catch (`failed`). Otherwise one byte per
      decoded character, filled in order. */
  method UrlBase64ToBytes(key: string, atob: string -> Option<string>) returns (failed: bool, out: array<Byte>)
    ensures failed <==> atob(Base64Of(key)).None?
    ensures failed ==> out.Length == 0
    ensures !failed ==> out.Length == |atob(Base64Of(key)).value|
    ensures !failed ==> out[..] == Bytes(atob(Base64Of(key)).value)
    ensures fresh(out)
  {
    var decoded := atob(Base64Of(key));
    if decoded.None? {
      return true, new Byte[0];
    }
    var raw := decoded.value;
    failed := false;
    out := new Byte[|raw|];
    var i := 0;
    while i < |raw|
      invariant 0 <= i <= |raw|
      invariant forall k :: 0 <= k < i ==> out[k] == CharByte(raw[k])
    {
      out[i] := CharByte(raw[i]);
      i := i + 1;
    }
  }

  /** A decoder that yields only Latin-1 characters (as `atob` does) gives
      bytes equal to the character codes. */
  lemma LatinBytes(raw: string)
    requires forall i :: 0 <= i < |raw| ==> (raw[i] as int) < 256
    ensures forall i :: 0 <= i < |raw| ==> Bytes(raw)[i] as int == raw[i] as int
  {
  }

  datatype Permission = Default | Granted | Denied

  /** `permission === 'granted' && !!subscription`. */
  predicate IsEnabled(permission: Permission, hasSubscription: bool)
    ensures permission != Granted ==> !IsEnabled(permission, hasSubscription)
    ensures !hasSubscription ==> !IsEnabled(permission, hasSubscription)
  {
    permission == Granted && hasSubscription
  }

  class PushState {
    var isSupported: bool
    var permission: Permission
    var hasSubscription: bool

    /** The mount effect: with a service worker and a push manager the
        browser's current permission is read; otherwise it stays
        `default` and the hook is unsupported. */
    constructor(browserSupportsPush: bool, browserPermission: Permission)
      ensures isSupported == browserSupportsPush
      ensures permission == (if browserSupportsPush then browserPermission else Default)
      ensures !hasSubscription
    {
      isSupported := browserSupportsPush;
      permission := if browserSupportsPush then browserPermission else Default;
      hasSubscription := false;
    }

    /** requestPermission: an unsupported browser answers false and is
        never asked; otherwise the prompt's answer (None when it throws) is
        stored. After a grant the hook awaits subscribeUser, which does
        nothing without a signed-in user, and otherwise either stores the
        subscription or throws (`subscribeFails`: the service worker, the
        push manager or the key conversion failed); a throw is caught and
        answers false with the permission already granted. */
    method RequestPermission(answer: Option<Permission>, signedIn: bool, subscribeFails: bool)
      returns (granted: bool, asked: bool)
      modifies this
      ensures !isSupported ==> !granted && !asked && permission == old(permission)
      ensures isSupported ==> asked
      ensures isSupported && answer.Some? ==> permission == answer.value
      ensures answer.None? ==> !granted && permission == old(permission)
      // true means granted and, for a signed-in user, subscribed.
      ensures granted <==> isSupported && answer == Some(Granted) && !(signedIn && subscribeFails)
      ensures granted ==> permission == Granted
      ensures granted && signedIn ==> hasSubscription && IsEnabled(permission, hasSubscription)
      // A failed subscription still leaves the permission granted.
      ensures isSupported && answer == Some(Granted) && signedIn && subscribeFails ==>
        !granted && permission == Granted && hasSubscription == old(hasSubscription)
      ensures isSupported && answer.Some? && answer.value != Granted ==> !IsEnabled(permission, hasSubscription)
      ensures !(granted && signedIn) ==> hasSubscription == old(hasSubscription)
      ensures isSupported == old(isSupported)
    {
      if !isSupported {
        return false, false;
      }
      asked := true;
      if answer.None? {
        return false, true;
      }
      permission := answer.value;
      if answer.value != Granted {
        return false, true;
      }
      if signedIn {
        if subscribeFails {
          return false, true;
        }
        hasSubscription := true;
      }
      granted := true;
    }
  }
}
