/** Texts as sequences of Unicode scalar values, with their lengths in UTF-8 bytes and UTF-16
    units. */
module Characters {
  import opened Wrappers

  /** The white space of `\s`. */
  predicate IsSpace(c: char) {
    var n := c as int;
    || 9 <= n <= 13 || n == 32 || n == 160 || n == 0x1680 || 0x2000 <= n <= 0x200a
    || n == 0x2028 || n == 0x2029 || n == 0x202f || n == 0x205f || n == 0x3000 || n == 0xfeff
  }

  predicate IsLetter(c: char) { 'a' <= c <= 'z' || 'A' <= c <= 'Z' }

  predicate IsDigit(c: char) { '0' <= c <= '9' }

  function LowerChar(c: char): char { if 'A' <= c <= 'Z' then (c as int + 32) as char else c }

  const DOTTED_I := '\U{130}'

  /** Lower-casing a text: ASCII letters, and U+0130, the one character that becomes two. Letters whose
      lower case is one other character outside ASCII are left alone. */
  function Lower(s: string): string {
    if s == "" then ""
    else (if s[0] == DOTTED_I then "i\U{307}" else [LowerChar(s[0])]) + Lower(s[1..])
  }

  function LowerEach(s: string): (r: string) {
    seq(|s|, i requires 0 <= i < |s| => LowerChar(s[i]))
  }

  lemma {:induction false} LowerIsAligned(s: string)
    requires DOTTED_I !in s
    ensures Lower(s) == LowerEach(s)
  {
    if s != "" {
      LowerIsAligned(s[1..]);
      assert LowerEach(s) == [LowerChar(s[0])] + LowerEach(s[1..]);
    }
  }

  function Utf8Width(c: char): nat {
    if c as int < 0x80 then 1 else if c as int < 0x800 then 2 else if c as int < 0x10000 then 3 else 4
  }

  function ByteLength(s: string): nat { if s == "" then 0 else Utf8Width(s[0]) + ByteLength(s[1..]) }

  /** The length of a text in UTF-16 units. */
  function Units(s: string): nat { if s == "" then 0 else (if s[0] as int < 0x10000 then 1 else 2) + Units(s[1..]) }

  lemma {:induction false} ByteLengthAdds(a: string, b: string)
    ensures ByteLength(a + b) == ByteLength(a) + ByteLength(b)
  {
    if a == "" {
      assert a + b == b;
    } else {
      assert (a + b)[1..] == a[1..] + b;
      ByteLengthAdds(a[1..], b);
    }
  }

  lemma {:induction false} BytesAtMostFour(s: string)
    ensures ByteLength(s) <= 4 * |s|
  {
    if s != "" { BytesAtMostFour(s[1..]); }
  }

  // ---------------------------------------------------------------- searching

  predicate StartsAt(s: string, pattern: string, i: nat) {
    i + |pattern| <= |s| && s[i..i + |pattern|] == pattern
  }

  lemma StartsWithFirst(s: string, pattern: string, i: nat)
    requires pattern != ""
    ensures StartsAt(s, pattern, i) ==> s[i] == pattern[0]
  {
    if StartsAt(s, pattern, i) {
      assert s[i..i + |pattern|][0] == s[i];
    }
  }

  /** The least position from `from` on at which `pattern` starts. */
  function IndexOf(s: string, pattern: string, from: nat): (r: Option<nat>)
    ensures r.Some? ==> from <= r.value && StartsAt(s, pattern, r.value)
    decreases |s| - from
  {
    if from + |pattern| > |s| then None
    else if StartsAt(s, pattern, from) then Some(from)
    else IndexOf(s, pattern, from + 1)
  }

  lemma {:induction false} IndexOfIsLeast(s: string, pattern: string, from: nat, k: nat)
    requires from <= k && StartsAt(s, pattern, k)
    ensures IndexOf(s, pattern, from).Some? && IndexOf(s, pattern, from).value <= k
    decreases k - from
  {
    if from < k {
      IndexOfIsLeast(s, pattern, from + 1, k);
    }
  }

  // ---------------------------------------------------------------- trimming

  function TrimStart(s: string): string { if s != "" && IsSpace(s[0]) then TrimStart(s[1..]) else s }

  function TrimEnd(s: string): string { if s != "" && IsSpace(s[|s| - 1]) then TrimEnd(s[..|s| - 1]) else s }

  function Trim(s: string): string { TrimEnd(TrimStart(s)) }

  /** Nothing to trim. */
  predicate Trimmed(s: string) { s == "" || (!IsSpace(s[0]) && !IsSpace(s[|s| - 1])) }

  lemma {:induction false} TrimStartTrims(s: string)
    ensures TrimStart(s) == "" || !IsSpace(TrimStart(s)[0])
    ensures Trimmed(s) ==> TrimStart(s) == s
  {
    if s != "" && IsSpace(s[0]) { TrimStartTrims(s[1..]); }
  }

  lemma {:induction false} TrimEndTrims(s: string)
    requires s == "" || !IsSpace(s[0])
    ensures Trimmed(TrimEnd(s))
    ensures Trimmed(s) ==> TrimEnd(s) == s
  {
    if s != "" && IsSpace(s[|s| - 1]) { TrimEndTrims(s[..|s| - 1]); }
  }

  /** Trimming leaves exactly the trimmed texts alone. */
  lemma TrimIsTrimmed(s: string)
    ensures Trimmed(Trim(s)) && (Trim(s) == s <==> Trimmed(s))
  {
    TrimStartTrims(s);
    TrimEndTrims(TrimStart(s));
  }
}
