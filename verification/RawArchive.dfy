/** `persistRawWithRetry`: the create-only raw archive write, with bounded calls that may take
    effect and still be reported as failed. Times are in milliseconds. */
module RawArchive {
  import opened Wrappers

  const MAX_ATTEMPTS := 10
  const INITIAL_BACKOFF := 100
  const MAX_BACKOFF := 2000

  type Digest = seq<bv8>

  /** What is stored under the key: its size, its checksum if there is one, its metadata. */
  datatype Stored = Stored(size: nat, sha256: Option<Digest>, metadata: map<string, string>)

  /** The message to be archived. */
  datatype Message = Message(size: nat, sha256: Digest, metadata: map<string, string>)

  function Exact(message: Message): Stored { Stored(message.size, Some(message.sha256), message.metadata) }

  datatype Answer<+T> = Answered(value: T) | Failed

  /** One key of the bucket. `late` tells that a put of this message was given up on and may
      still take effect. */
  class RawKey {
    var current: Option<Stored>
    var late: bool

    /** A create-only put: an object that is there stays as it is. */
    method Put(message: Message) returns (stored: Option<Stored>)
      modifies this`current
      ensures old(current).None? ==> current == stored == Some(Exact(message))
      ensures old(current).Some? ==> current == old(current) && stored.None?
    {
      if current.Some? { return None; }
      current := Some(Exact(message));
      return current;
    }

    /** An abandoned put may take effect at any moment. */
    method Meanwhile(message: Message)
      modifies this
      ensures old(current).Some? ==> current == old(current)
      ensures old(current).None? ==> current.None? || current == Some(Exact(message))
    {
      var now: bool := *;
      if late && now {
        var stored := Put(message);
        late := false;
      }
    }

    /** A put under a deadline: it may answer, or be given up on before or after its effect. */
    method BoundedPut(message: Message, timeout: nat) returns (answer: Answer<Option<Stored>>, spent: nat)
      modifies this
      ensures spent <= timeout
      ensures old(current).Some? ==> current == old(current)
      ensures old(current).None? ==> current.None? || current == Some(Exact(message))
      ensures answer.Answered? ==> current.Some?
      ensures answer.Answered? && answer.value.Some? ==> answer.value == current == Some(Exact(message))
    {
      Meanwhile(message);
      spent := Spent(timeout);
      var answers, takesEffect: bool := *, *;
      if answers || takesEffect {
        var stored := Put(message);
        if answers { return Answered(stored), spent; }
      } else {
        late := true;
      }
      return Failed, spent;
    }

    method BoundedHead(message: Message, timeout: nat) returns (answer: Answer<Option<Stored>>, spent: nat)
      modifies this
      ensures spent <= timeout
      ensures old(current).Some? ==> current == old(current)
      ensures old(current).None? ==> current.None? || current == Some(Exact(message))
      ensures answer.Answered? ==> answer.value == current
    {
      Meanwhile(message);
      spent := Spent(timeout);
      var answers: bool := *;
      return if answers then Answered(current) else Failed, spent;
    }
  }

  method Spent(timeout: nat) returns (spent: nat)
    ensures spent <= timeout
  {
    var time: int := *;
    return if 0 <= time <= timeout then time else timeout;
  }

  // ---------------------------------------------------------------- backoff

  function Power(n: nat): nat { if n == 0 then 1 else 2 * Power(n - 1) }

  function MaxDelay(attempt: nat): nat
    requires 1 <= attempt
  {
    var delay := INITIAL_BACKOFF * Power(attempt - 1);
    if delay < MAX_BACKOFF then delay else MAX_BACKOFF
  }

  /** A random sample is clamped to [0, 1]; one that is not a finite number counts as a half. */
  function Clamped(sample: Option<real>): (r: real)
    ensures 0.0 <= r <= 1.0
  {
    match sample
    case None => 0.5
    case Some(r) => if r < 0.0 then 0.0 else if r > 1.0 then 1.0 else r
  }

  function Share(random: real): real { 0.5 + random * 0.5 }

  function JitteredBackoff(maxDelay: nat, sample: Option<real>): (delay: int)
    ensures 1 <= delay
    ensures 1 <= maxDelay ==> maxDelay <= 2 * delay + 1 && delay <= maxDelay
    ensures maxDelay % 2 == 0 && 1 <= maxDelay ==> maxDelay <= 2 * delay
  {
    FloorOfShare(maxDelay, Share(Clamped(sample)));
    var delay := ((maxDelay as real) * Share(Clamped(sample))).Floor;
    if delay < 1 then 1 else delay
  }

  lemma Scaled(x: real, share: real) returns (scaled: real)
    requires 0.0 <= x && 0.5 <= share <= 1.0
    ensures scaled == x * share && x <= 2.0 * scaled && scaled <= x
  {
    var above, below := share - 0.5, 1.0 - share;
    scaled := x * share;
    assert 0.0 <= x * above && 0.0 <= x * below;
    assert x * above == scaled - x * 0.5;
    assert x * below == x - scaled;
  }

  lemma FloorOfScaled(half: int, odd: int, scaled: real)
    requires 0 <= odd <= 1 && 0 <= half
    requires 2.0 * (half as real) + odd as real <= 2.0 * scaled && scaled <= 2.0 * (half as real) + odd as real
    ensures half <= scaled.Floor <= 2 * half + odd
  {
    var n := scaled.Floor;
    assert n as real <= scaled < n as real + 1.0;
    assert half as real <= scaled;
  }

  lemma FloorOfShare(max: nat, share: real)
    requires 0.5 <= share <= 1.0
    ensures var delay := ((max as real) * share).Floor;
            delay <= max <= 2 * delay + 1 && (max % 2 == 0 ==> max <= 2 * delay)
  {
    var half, odd, top := max / 2, max % 2, max as real;
    Halves(max, half, odd);
    var scaled := Scaled(top, share);
    FloorOfScaled(half, odd, scaled);
  }

  lemma Halves(max: int, half: int, odd: int)
    requires max == 2 * half + odd
    ensures max as real == 2.0 * (half as real) + odd as real
  {
  }

  /** The longest total sleep over the first `attempts` failures. */
  function TotalDelay(attempts: nat): nat {
    if attempts == 0 then 0 else TotalDelay(attempts - 1) + MaxDelay(attempts)
  }

  lemma TotalOfAll()
    ensures TotalDelay(9) == 11_100
  {
    assert Power(4) == 16 && Power(8) == 256;
    assert TotalDelay(5) == 3_100;
  }

  lemma {:induction false} DelaysAreEven(attempt: nat)
    requires 1 <= attempt
    ensures MaxDelay(attempt) % 2 == 0 && 2 <= MaxDelay(attempt)
  {
    PowerIsPositive(attempt - 1);
  }

  lemma {:induction false} PowerIsPositive(n: nat)
    ensures 1 <= Power(n)
  {
    if n > 0 { PowerIsPositive(n - 1); }
  }

  lemma {:induction false} TotalGrows(a: nat, b: nat)
    requires a <= b
    ensures TotalDelay(a) <= TotalDelay(b)
    decreases b - a
  {
    if a < b { TotalGrows(a, b - 1); }
  }

  // ---------------------------------------------------------------- the retry loop

  /** Whenever an object is returned, it is the one under the key and it is exactly this
      message; an object that was there first and differs is never accepted. On an empty key
      the loop gives up only if every attempt had a call that did not answer. */
  method PersistRawWithRetry(key: RawKey, message: Message, timeout: nat)
      returns (archived: Option<Stored>, attempts: nat, slept: nat, elapsed: nat, ghost answered: bool)
    modifies key
    ensures archived.Some? ==> archived == key.current == Some(Exact(message))
    ensures old(key.current).Some? ==> key.current == old(key.current)
    ensures old(key.current).None? && archived.None? ==> !answered
    ensures old(key.current) == Some(Exact(message)) && archived.None? ==> !answered
    ensures 1 <= attempts <= MAX_ATTEMPTS
    ensures archived.None? ==> attempts == MAX_ATTEMPTS && 5_550 <= slept
    ensures slept <= 11_100 && elapsed <= 20 * timeout + 11_100
  {
    attempts, slept, elapsed, answered := 0, 0, 0, false;
    TotalOfAll();
    while true
      invariant attempts < MAX_ATTEMPTS
      invariant old(key.current).Some? ==> key.current == old(key.current)
      invariant old(key.current).None? ==> key.current.None? || key.current == Some(Exact(message))
      invariant old(key.current).None? || old(key.current) == Some(Exact(message)) ==> !answered
      invariant TotalDelay(attempts) <= 2 * slept && slept <= TotalDelay(attempts)
      invariant elapsed <= 2 * timeout * attempts + slept
      decreases MAX_ATTEMPTS - attempts
    {
      attempts := attempts + 1;
      TotalGrows(attempts - 1, 9);
      var result, spent := Attempt(key, message, timeout);
      elapsed := elapsed + spent;
      MoreTime(timeout, attempts);
      if result.Answered? {
        answered := true;
        if result.value.Some? && result.value.value == Exact(message) {
          return result.value, attempts, slept, elapsed, answered;
        }
      }
      if attempts == MAX_ATTEMPTS {
        return None, attempts, slept, elapsed, answered;
      }
      var sample: Option<real> := *;
      DelaysAreEven(attempts);
      var delay := JitteredBackoff(MaxDelay(attempts), sample);
      slept, elapsed := slept + delay, elapsed + delay;
    }
  }

  lemma MoreTime(timeout: nat, attempts: nat)
    requires 1 <= attempts <= MAX_ATTEMPTS
    ensures 2 * timeout * attempts == 2 * timeout * (attempts - 1) + 2 * timeout
    ensures 2 * timeout * attempts <= 20 * timeout
  {
    assert timeout * attempts == timeout * (attempts - 1) + timeout;
    assert timeout * attempts + timeout * (MAX_ATTEMPTS - attempts) == timeout * MAX_ATTEMPTS;
  }

  /** One attempt: the put, and a head if somebody else's object is there. */
  method Attempt(key: RawKey, message: Message, timeout: nat) returns (result: Answer<Option<Stored>>, spent: nat)
    modifies key
    ensures spent <= 2 * timeout
    ensures old(key.current).Some? ==> key.current == old(key.current)
    ensures old(key.current).None? ==> key.current.None? || key.current == Some(Exact(message))
    ensures result.Answered? ==> result.value == key.current && key.current.Some?
  {
    var put, putTime := key.BoundedPut(message, timeout);
    if put.Failed? { return Failed, putTime; }
    if put.value.Some? { return put, putTime; }
    var head, headTime := key.BoundedHead(message, timeout);
    return head, putTime + headTime;
  }
}
