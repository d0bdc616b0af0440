/**
 * The confirmation gate shared by every tool: the user's raw answer is
 * compared, after `toLowerCase()`, with the literal "y".
 */
module Gate {

  /** `toLowerCase()` of one character. Only the ASCII upper-case letters change. */
  function LowerChar(c: char): char
  {
    if 'A' <= c <= 'Z' then (c as int + 32) as char else c
  }

  /** `String.prototype.toLowerCase`, character by character. */
  function ToLower(s: string): string
  {
    seq(|s|, i requires 0 <= i < |s| => LowerChar(s[i]))
  }

  /** The tools proceed exactly when `answer.toLowerCase() !== "y"` is false. */
  predicate Affirmative(answer: string)
    ensures Affirmative(answer) ==> |answer| == 1 && (answer[0] == 'y' || answer[0] == 'Y')
  {
    assert |answer| == 1 ==> ToLower(answer)[0] == LowerChar(answer[0]);
    ToLower(answer) == "y"
  }

  /** Exactly the two answers "y" and "Y" let a tool proceed. */
  lemma AffirmativeIff(answer: string)
    ensures Affirmative(answer) <==> answer == "y" || answer == "Y"
  {
  }

  /** Any answer of another length, the empty one included, declines. */
  lemma LongOrEmptyDeclines(answer: string)
    requires |answer| != 1
    ensures !Affirmative(answer)
  {
  }
}
