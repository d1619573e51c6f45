// How a task id travels to an external provider and back, and what a result may be.
module BatchProvider {
  import opened Text
  import opened Decimal

  const CUSTOM_ID_PREFIX: string := "task-"
  const MAX_CUSTOM_ID: nat := 64

  function CustomIdFor(task: nat): string {
    CUSTOM_ID_PREFIX + Spell(task)
  }

  predicate AllDigits(s: string) {
    forall i :: 0 <= i < |s| ==> IsDigit(s[i])
  }

  /** The task a result belongs to, or nothing when this appliance did not write its id. */
  function TaskIdFrom(customId: string): Option<nat> {
    if !(CUSTOM_ID_PREFIX <= customId) then None
    else
      var digits := customId[|CUSTOM_ID_PREFIX|..];
      if digits != "" && AllDigits(digits) then Some(Value(digits)) else None
  }

  /** The pattern both providers accept: one to 64 letters, digits, underscores or hyphens. */
  predicate Accepted(customId: string) {
    && 1 <= |customId| <= MAX_CUSTOM_ID
    && forall i :: 0 <= i < |customId| ==>
      var c := customId[i];
      'a' <= c <= 'z' || 'A' <= c <= 'Z' || IsDigit(c) || c == '_' || c == '-'
  }

  /** An id written here is read back as the task it was written for, so results are never
      attributed to another task, and every id the queue can issue is one the providers
      take. */
  lemma CustomIdRoundTrip(task: nat)
    ensures TaskIdFrom(CustomIdFor(task)) == Some(task)
    ensures task < 0x8000_0000 ==> Accepted(CustomIdFor(task))
  {
    var id, digits := CustomIdFor(task), Spell(task);
    assert id[|CUSTOM_ID_PREFIX|..] == digits;
    ValueOfSpell(task);
    if task < 0x8000_0000 {
      assert Pow10(4) == 10000;
      assert Pow10(8) == 10000 * Pow10(4);
      assert Pow10(10) == 100 * Pow10(8);
      SpellLength(task, 10);
      assert forall i :: 5 <= i < |id| ==> id[i] == digits[i - 5];
    }
  }

  lemma CustomIdInjective(a: nat, b: nat)
    requires CustomIdFor(a) == CustomIdFor(b)
    ensures a == b
  {
    CustomIdRoundTrip(a);
    CustomIdRoundTrip(b);
  }

  /** Where a submitted batch is. */
  datatype BatchStatus = Working | Ready | Dead

  /** What came back for one request: a text, or an error and whether to retry it. */
  datatype Answer = Text(text: string) | Error(retryable: bool)

  datatype BatchResult = BatchResult(customId: string, answer: Answer)
}
