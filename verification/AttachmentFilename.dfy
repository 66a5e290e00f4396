/** Bounded file names: at most so many characters and so many UTF-8 bytes, keeping a
    conventional extension. Characters are Unicode scalar values. */
module AttachmentFilename {
  import opened Wrappers
  import opened Characters

  const MAX_CHARACTERS := 255
  const KEY_MAX_BYTES := 1024
  const MAX_EXTENSION := 64

  // ---------------------------------------------------------------- the longest prefix that fits

  predicate Fits(s: string, maximumCharacters: int, maximumBytes: int) {
    |s| <= maximumCharacters && ByteLength(s) <= maximumBytes
  }

  function Take(value: string, maximumCharacters: int, maximumBytes: int): string {
    if value == "" || maximumCharacters <= 0 || Utf8Width(value[0]) > maximumBytes then ""
    else [value[0]] + Take(value[1..], maximumCharacters - 1, maximumBytes - Utf8Width(value[0]))
  }

  method TakeBoundedCharacters(value: string, maximumCharacters: int, maximumBytes: int) returns (accepted: string)
    ensures accepted == Take(value, maximumCharacters, maximumBytes)
  {
    var bytes := 0;
    accepted := "";
    assert value[0..] == value;
    for i := 0 to |value|
      invariant |accepted| == i
      invariant Take(value, maximumCharacters, maximumBytes)
             == accepted + Take(value[i..], maximumCharacters - i, maximumBytes - bytes)
    {
      assert value[i..][0] == value[i] && value[i..][1..] == value[i + 1..];
      if |accepted| >= maximumCharacters {
        assert accepted + "" == accepted;
        return accepted;
      }
      var characterBytes := Utf8Width(value[i]);
      if bytes + characterBytes > maximumBytes {
        assert accepted + "" == accepted;
        return accepted;
      }
      assert accepted + ([value[i]]
                         + Take(value[i + 1..], maximumCharacters - i - 1, maximumBytes - bytes - characterBytes))
          == accepted + [value[i]]
             + Take(value[i + 1..], maximumCharacters - i - 1, maximumBytes - bytes - characterBytes);
      accepted := accepted + [value[i]];
      bytes := bytes + characterBytes;
    }
    assert accepted + "" == accepted;
  }

  /** What is taken is a prefix that fits, and every prefix that fits is a prefix of it. */
  lemma {:induction false} TakeIsLongest(value: string, maximumCharacters: int, maximumBytes: int)
    ensures Take(value, maximumCharacters, maximumBytes) <= value
    ensures 0 <= maximumCharacters && 0 <= maximumBytes ==>
              Fits(Take(value, maximumCharacters, maximumBytes), maximumCharacters, maximumBytes)
    ensures forall n :: 0 <= n <= |value| && Fits(value[..n], maximumCharacters, maximumBytes) ==>
              n <= |Take(value, maximumCharacters, maximumBytes)|
    decreases |value|
  {
    if value != "" {
      var width := Utf8Width(value[0]);
      TakeIsLongest(value[1..], maximumCharacters - 1, maximumBytes - width);
      var taken := Take(value, maximumCharacters, maximumBytes);
      if taken != "" {
        assert taken[1..] == Take(value[1..], maximumCharacters - 1, maximumBytes - width);
      }
      forall n | 0 <= n <= |value| && Fits(value[..n], maximumCharacters, maximumBytes)
        ensures n <= |taken|
      {
        if n > 0 {
          assert value[..n][1..] == value[1..][..n - 1];
          assert Fits(value[1..][..n - 1], maximumCharacters - 1, maximumBytes - width);
        }
      }
    }
  }

  lemma TakesAll(value: string, maximumCharacters: int, maximumBytes: int)
    requires Fits(value, maximumCharacters, maximumBytes)
    ensures Take(value, maximumCharacters, maximumBytes) == value
  {
    TakeIsLongest(value, maximumCharacters, maximumBytes);
    assert value[..|value|] == value;
  }

  // ---------------------------------------------------------------- the extension

  /** The position of the last dot, or -1. */
  function LastDot(value: string): (r: int)
    ensures -1 <= r < |value| && (r >= 0 ==> value[r] == '.')
  {
    if value == "" then -1
    else if value[|value| - 1] == '.' then |value| - 1
    else LastDot(value[..|value| - 1])
  }

  lemma {:induction false} NoDotAfterTheLast(value: string, i: nat)
    requires LastDot(value) < i < |value|
    ensures value[i] != '.'
  {
    if i < |value| - 1 { NoDotAfterTheLast(value[..|value| - 1], i); }
  }

  function ExtensionOf(value: string): string {
    if LastDot(value) > 0 then value[LastDot(value)..] else ""
  }

  /** The extension is short enough to be kept, with room for something before it. */
  predicate KeepsExtension(value: string, maximumCharacters: int, maximumBytes: int) {
    var extension := ExtensionOf(value);
    |extension| <= MAX_EXTENSION && |extension| < maximumCharacters && ByteLength(extension) < maximumBytes
  }

  function Suffix(value: string, maximumCharacters: int, maximumBytes: int): string {
    if KeepsExtension(value, maximumCharacters, maximumBytes) then ExtensionOf(value) else ""
  }

  function Stem(value: string, maximumCharacters: int, maximumBytes: int): string {
    if KeepsExtension(value, maximumCharacters, maximumBytes) then value[..|value| - |ExtensionOf(value)|] else value
  }

  function Bounded(value: string, maximumCharacters: int, maximumBytes: int): string {
    var suffix := Suffix(value, maximumCharacters, maximumBytes);
    Take(Stem(value, maximumCharacters, maximumBytes), maximumCharacters - |suffix|, maximumBytes - ByteLength(suffix))
    + suffix
  }

  method BoundedFilename(value: string, maximumCharacters: int, maximumBytes: int) returns (name: string)
    ensures name == Bounded(value, maximumCharacters, maximumBytes)
  {
    var dot := LastDot(value);
    var extension := if dot > 0 then value[dot..] else "";
    var preserveExtension :=
      |extension| <= MAX_EXTENSION && |extension| < maximumCharacters && ByteLength(extension) < maximumBytes;
    var suffix := if preserveExtension then extension else "";
    var stem := value;
    if preserveExtension && dot > 0 { stem := value[..dot]; }
    else { assert value[..|value|] == value; }
    var boundedStem := TakeBoundedCharacters(stem, maximumCharacters - |suffix|, maximumBytes - ByteLength(suffix));
    return boundedStem + suffix;
  }

  lemma StemAndSuffix(value: string, maximumCharacters: int, maximumBytes: int)
    ensures Stem(value, maximumCharacters, maximumBytes) + Suffix(value, maximumCharacters, maximumBytes) == value
  {
  }

  /** A bounded name fits; it ends with the extension whenever that qualifies, and what comes
      before is the longest part of the stem that leaves room for it. */
  lemma BoundedIsLongest(value: string, maximumCharacters: nat, maximumBytes: nat)
    ensures Fits(Bounded(value, maximumCharacters, maximumBytes), maximumCharacters, maximumBytes)
    ensures exists n :: 0 <= n <= |Stem(value, maximumCharacters, maximumBytes)|
              && Bounded(value, maximumCharacters, maximumBytes)
                 == Stem(value, maximumCharacters, maximumBytes)[..n] + Suffix(value, maximumCharacters, maximumBytes)
    ensures forall n ::
              0 <= n <= |Stem(value, maximumCharacters, maximumBytes)|
              && Fits(Stem(value, maximumCharacters, maximumBytes)[..n]
                      + Suffix(value, maximumCharacters, maximumBytes),
                      maximumCharacters, maximumBytes)
              ==> n + |Suffix(value, maximumCharacters, maximumBytes)|
                     <= |Bounded(value, maximumCharacters, maximumBytes)|
  {
    var stem, suffix := Stem(value, maximumCharacters, maximumBytes), Suffix(value, maximumCharacters, maximumBytes);
    var chars, bytes := maximumCharacters - |suffix|, maximumBytes - ByteLength(suffix);
    TakeIsLongest(stem, chars, bytes);
    ByteLengthAdds(Take(stem, chars, bytes), suffix);
    assert Take(stem, chars, bytes) == stem[..|Take(stem, chars, bytes)|];
    forall n | 0 <= n <= |stem| && Fits(stem[..n] + suffix, maximumCharacters, maximumBytes)
      ensures n + |suffix| <= |Bounded(value, maximumCharacters, maximumBytes)|
    {
      ByteLengthAdds(stem[..n], suffix);
      assert Fits(stem[..n], chars, bytes);
    }
  }

  /** A name that fits is left alone. */
  lemma FittingNameStays(value: string, maximumCharacters: nat, maximumBytes: nat)
    requires Fits(value, maximumCharacters, maximumBytes)
    ensures Bounded(value, maximumCharacters, maximumBytes) == value
  {
    var stem, suffix := Stem(value, maximumCharacters, maximumBytes), Suffix(value, maximumCharacters, maximumBytes);
    StemAndSuffix(value, maximumCharacters, maximumBytes);
    ByteLengthAdds(stem, suffix);
    TakesAll(stem, maximumCharacters - |suffix|, maximumBytes - ByteLength(suffix));
  }

  // ---------------------------------------------------------------- storage names

  predicate IsReplaced(c: char) {
    || c == '/' || c == '\\' || c == ':' || c == '*' || c == '?' || c == '"' || c == '<' || c == '>' || c == '|'
    || c as int <= 0x1f || c as int == 0x7f
  }

  predicate Clean(s: string) { forall i :: 0 <= i < |s| ==> !IsReplaced(s[i]) }

  function Sanitized(value: string): string {
    if value == "" then "" else [if IsReplaced(value[0]) then '_' else value[0]] + Sanitized(value[1..])
  }

  lemma {:induction false} SanitizedIsClean(value: string)
    ensures Clean(Sanitized(value)) && |Sanitized(value)| == |value|
    ensures Clean(value) ==> Sanitized(value) == value
  {
    if value != "" {
      SanitizedIsClean(value[1..]);
      if Clean(value) {
        assert forall i :: 0 <= i < |value[1..]| ==> value[1..][i] == value[i + 1];
      }
    }
  }

  const UNTITLED := "untitled"

  function OrUntitled(value: string): string { if value == "" then UNTITLED else value }

  /** The name within a budget of bytes, or else as much of `untitled` as fits. */
  function NameWithin(source: string, available: nat): Option<string> {
    var bounded := Bounded(source, MAX_CHARACTERS, available);
    var fallback := Take(UNTITLED, 8, available);
    if bounded != "" then Some(bounded) else if fallback != "" then Some(fallback) else None
  }

  /** The stored name under a key prefix, unless the prefix leaves no room. */
  function StorageName(value: string, keyPrefix: string): Option<string> {
    if ByteLength(keyPrefix) >= KEY_MAX_BYTES then None
    else NameWithin(Sanitized(OrUntitled(value)), KEY_MAX_BYTES - ByteLength(keyPrefix))
  }

  method SafeAttachmentStorageFilename(value: string, keyPrefix: string) returns (name: Option<string>)
    ensures name == StorageName(value, keyPrefix)
  {
    var availableBytes := KEY_MAX_BYTES - ByteLength(keyPrefix);
    if availableBytes <= 0 { return None; }
    var sanitized := Sanitized(OrUntitled(value));
    var bounded := BoundedFilename(sanitized, MAX_CHARACTERS, availableBytes);
    if bounded != "" { return Some(bounded); }
    var fallback := TakeBoundedCharacters(UNTITLED, 8, availableBytes);
    return if fallback != "" then Some(fallback) else None;
  }

  lemma NameWithinFits(source: string, available: nat)
    requires available > 0
    ensures NameWithin(source, available).Some?
    ensures NameWithin(source, available).value != ""
               && Fits(NameWithin(source, available).value, MAX_CHARACTERS, available)
  {
    BoundedIsLongest(source, MAX_CHARACTERS, available);
    TakeIsLongest(UNTITLED, 8, available);
    assert Utf8Width(UNTITLED[0]) == 1;
  }

  /** For every name and prefix the result is not empty, has at most 255 characters, and makes
      a key of at most 1,024 bytes; there is none exactly when the prefix alone is too long. */
  lemma StorageNameFits(value: string, keyPrefix: string)
    ensures StorageName(value, keyPrefix).None? <==> ByteLength(keyPrefix) >= KEY_MAX_BYTES
    ensures StorageName(value, keyPrefix).Some? ==>
              var name := StorageName(value, keyPrefix).value;
              && name != "" && |name| <= MAX_CHARACTERS && ByteLength(keyPrefix + name) <= KEY_MAX_BYTES
  {
    if ByteLength(keyPrefix) < KEY_MAX_BYTES {
      NameWithinFits(Sanitized(OrUntitled(value)), KEY_MAX_BYTES - ByteLength(keyPrefix));
      ByteLengthAdds(keyPrefix, StorageName(value, keyPrefix).value);
    }
  }

  lemma TakenIsClean(value: string, maximumCharacters: int, maximumBytes: int)
    requires Clean(value)
    ensures Clean(Take(value, maximumCharacters, maximumBytes))
  {
    TakeIsLongest(value, maximumCharacters, maximumBytes);
  }

  lemma BoundedIsClean(source: string, maximumCharacters: nat, maximumBytes: nat)
    requires Clean(source)
    ensures Clean(Bounded(source, maximumCharacters, maximumBytes))
  {
    var stem, suffix := Stem(source, maximumCharacters, maximumBytes), Suffix(source, maximumCharacters, maximumBytes);
    TakenIsClean(stem, maximumCharacters - |suffix|, maximumBytes - ByteLength(suffix));
  }

  lemma NameWithinIsClean(source: string, available: nat)
    requires Clean(source) && NameWithin(source, available).Some?
    ensures Clean(NameWithin(source, available).value)
  {
    BoundedIsClean(source, MAX_CHARACTERS, available);
    FallbackIsClean(available);
  }

  lemma FallbackIsClean(available: nat)
    ensures Clean(Take(UNTITLED, 8, available))
  {
    TakeIsLongest(UNTITLED, 8, available);
    assert Clean(UNTITLED);
  }

  /** Naming a stored file again under the same prefix changes nothing. */
  lemma StorageNameIsIdempotent(value: string, keyPrefix: string)
    requires StorageName(value, keyPrefix).Some?
    ensures StorageName(StorageName(value, keyPrefix).value, keyPrefix) == StorageName(value, keyPrefix)
  {
    var source, available := Sanitized(OrUntitled(value)), KEY_MAX_BYTES - ByteLength(keyPrefix);
    var name := StorageName(value, keyPrefix).value;
    SanitizedIsClean(OrUntitled(value));
    NameWithinFits(source, available);
    NameWithinIsClean(source, available);
    SanitizedIsClean(name);
    FittingNameStays(name, MAX_CHARACTERS, available);
  }
}
