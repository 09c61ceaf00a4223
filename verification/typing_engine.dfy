/**
 The typing evaluation engine: one attempt at typing a target text.

 The session is an immutable value; the two mutators return the next
 session. Clock readings are passed in as `now` instead of being read from
 the wall clock, and every statistic is recomputed from the current state.
 */
module TypingEngine {

  import opened Options
  import opened Nats
  import opened Text

  /** The classification of one character of the target text. */
  datatype Status = Correct | Incorrect | Pending

  /** The session: the text to reproduce, what has been typed so far, and
      the two optional timestamps (seconds). */
  datatype Engine = Engine(
    target: string,
    input: string,
    startTime: Option<real>,
    endTime: Option<real>)

  /** One row of the per-word report. */
  datatype WordEntry = WordEntry(word: string, typed: string, accuracy: real, correct: bool)

  /** A keystroke or clock event the input loop may deliver. */
  datatype Event = Type(c: char) | Backspace | StartAt(now: real) | EndAt(now: real)

  /** Python truthiness of an optional timestamp: `None` and `0.0` are both unset. */
  predicate IsSet(t: Option<real>) {
    t.Some? && t.value != 0.0
  }

  /** The length invariant the append guard maintains. */
  predicate Valid(e: Engine) {
    |e.input| <= |e.target|
  }

  /** A fresh session for `target`: nothing typed and no timestamps. */
  function Create(target: string): (e: Engine)
    ensures e.target == target && |e.input| == 0
    ensures !IsSet(e.startTime) && !IsSet(e.endTime)
    ensures Valid(e)
  {
    Engine(target, [], None, None)
  }

  /** `start()`: records `now` as the start, overwriting any earlier start. */
  function Start(e: Engine, now: real): (r: Engine)
    ensures r.startTime == Some(now)
    ensures r.target == e.target && r.input == e.input && r.endTime == e.endTime
  {
    e.(startTime := Some(now))
  }

  /** `end()`: records `now` as the end, overwriting any earlier end. */
  function End(e: Engine, now: real): (r: Engine)
    ensures r.endTime == Some(now)
    ensures r.target == e.target && r.input == e.input && r.startTime == e.startTime
  {
    e.(endTime := Some(now))
  }

  /** `add_character`: appends `c` while the input is shorter than the
      target, and is silently ignored otherwise. */
  function AddCharacter(e: Engine, c: char): (r: Engine)
    ensures r.target == e.target && r.startTime == e.startTime && r.endTime == e.endTime
    ensures |e.input| < |e.target| ==> r.input == e.input + [c]
    ensures |e.input| >= |e.target| ==> r == e
    ensures Valid(e) ==> Valid(r)
  {
    if |e.input| < |e.target| then e.(input := e.input + [c]) else e
  }

  /** `remove_character` (backspace): drops the last typed character, and
      does nothing on empty input. */
  function RemoveCharacter(e: Engine): (r: Engine)
    ensures r.target == e.target && r.startTime == e.startTime && r.endTime == e.endTime
    ensures |e.input| > 0 ==> r.input + [e.input[|e.input| - 1]] == e.input
    ensures |e.input| == 0 ==> r == e
    ensures Valid(e) ==> Valid(r)
  {
    if |e.input| > 0 then e.(input := e.input[..|e.input| - 1]) else e
  }

  /** `is_complete`: the session is complete exactly when further typing
      is ignored. */
  function IsComplete(e: Engine): (done: bool)
    ensures done <==> forall c :: AddCharacter(e, c) == e
  {
    assert |e.input| < |e.target| ==> AddCharacter(e, 'x').input == e.input + ['x'];
    |e.input| >= |e.target|
  }

  /** A complete session ignores further typing and stays complete. */
  lemma AddWhenComplete(e: Engine, c: char)
    requires IsComplete(e)
    ensures AddCharacter(e, c) == e
    ensures IsComplete(AddCharacter(e, c))
  {
  }

  /** Backspace undoes an accepted keystroke. */
  lemma RemoveUndoesAdd(e: Engine, c: char)
    requires !IsComplete(e)
    ensures RemoveCharacter(AddCharacter(e, c)) == e
  {
    var a := AddCharacter(e, c);
    assert a.input[..|a.input| - 1] == e.input;
  }

  /** Retyping the erased character restores the session. */
  lemma AddUndoesRemove(e: Engine)
    requires Valid(e) && |e.input| > 0
    ensures AddCharacter(RemoveCharacter(e), e.input[|e.input| - 1]) == e
  {
  }

  /** One event of the input loop applied to the session. */
  function Step(e: Engine, ev: Event): Engine {
    match ev
    case Type(c) => AddCharacter(e, c)
    case Backspace => RemoveCharacter(e)
    case StartAt(now) => Start(e, now)
    case EndAt(now) => End(e, now)
  }

  /** A whole stream of events applied in order. The target never changes
      and no sequence of events breaks the length invariant. */
  function Replay(e: Engine, evs: seq<Event>): (r: Engine)
    ensures r.target == e.target
    ensures Valid(e) ==> Valid(r)
    decreases |evs|
  {
    if |evs| == 0 then e else Replay(Step(e, evs[0]), evs[1..])
  }

  /** Every session reachable from `Create` satisfies the length invariant. */
  lemma ReachableIsValid(target: string, evs: seq<Event>)
    ensures Valid(Replay(Create(target), evs))
    ensures Replay(Create(target), evs).target == target
  {
  }

  // ---------------------------------------------------------------------
  // Character classification and counting

  /** The status of target position `i` given the typed input. */
  function StatusAt(target: string, input: string, i: nat): Status
    requires i < |target|
  {
    if i < |input| then (if input[i] == target[i] then Correct else Incorrect) else Pending
  }

  /** `get_current_char_status` on a target and an input, walked in lockstep. */
  function Classify(target: string, input: string): (r: seq<(char, Status)>)
    ensures |r| == |target|
    ensures forall i :: 0 <= i < |target| ==> r[i] == (target[i], StatusAt(target, input, i))
    decreases |target|
  {
    if |target| == 0 then []
    else
      var st := if |input| == 0 then Pending else if input[0] == target[0] then Correct else Incorrect;
      [(target[0], st)] + Classify(target[1..], if |input| == 0 then input else input[1..])
  }

  /** `get_current_char_status`: one (target character, status) pair per
      target character, reflecting only the current input. */
  function CharStatus(e: Engine): (r: seq<(char, Status)>)
    ensures |r| == |e.target|
    ensures forall i :: 0 <= i < |r| ==> r[i].0 == e.target[i]
    ensures forall i :: 0 <= i < |r| && i < |e.input| ==>
              (r[i].1 == Correct <==> e.input[i] == e.target[i])
    ensures forall i :: 0 <= i < |r| && i < |e.input| ==> r[i].1 != Pending
    ensures forall i :: 0 <= i < |r| && i >= |e.input| ==> r[i].1 == Pending
  {
    Classify(e.target, e.input)
  }

  /** The number of entries of `s` with status `st`. */
  function CountStatus(s: seq<(char, Status)>, st: Status): nat {
    if |s| == 0 then 0 else (if s[0].1 == st then 1 else 0) + CountStatus(s[1..], st)
  }

  /** Positions below both lengths where `a` and `b` agree. The count is
      full exactly when the shorter one is a prefix of the longer one. */
  function MatchCount(a: string, b: string): (n: nat)
    ensures n <= Min(|a|, |b|)
    ensures n == Min(|a|, |b|) <==> a[..Min(|a|, |b|)] == b[..Min(|a|, |b|)]
    decreases |a|
  {
    if |a| == 0 || |b| == 0 then 0
    else
      var rest := MatchCount(a[1..], b[1..]);
      var m := Min(|a|, |b|);
      assert a[..m] == [a[0]] + a[1..][..m - 1];
      assert b[..m] == [b[0]] + b[1..][..m - 1];
      if a[0] == b[0] then 1 + rest
      else
        assert a[..m][0] != b[..m][0];
        rest
  }

  /** Positions below both lengths where `a` and `b` differ; together with
      the matches they cover every compared position. */
  function MismatchCount(a: string, b: string): (n: nat)
    ensures n + MatchCount(a, b) == Min(|a|, |b|)
    decreases |a|
  {
    if |a| == 0 || |b| == 0 then 0
    else (if a[0] != b[0] then 1 else 0) + MismatchCount(a[1..], b[1..])
  }

  /** Typed characters that match the target at the same position. */
  function CorrectChars(e: Engine): (n: nat)
    ensures n <= |e.input| && n <= |e.target|
    ensures Valid(e) ==> (n == |e.input| <==> e.input <= e.target)
  {
    MatchCount(e.input, e.target)
  }

  /** `calculate_errors`: the number of typed positions that differ from the
      target. Under the length invariant errors and correct characters
      together account for every typed character. */
  function Errors(e: Engine): (n: nat)
    ensures n <= |e.input|
    ensures Valid(e) ==> n + CorrectChars(e) == |e.input|
    ensures n == 0 && Valid(e) ==> e.input <= e.target
  {
    MismatchCount(e.input, e.target)
  }

  /** `r` is `part` out of `whole`, in percent. */
  predicate IsPercent(r: real, part: nat, whole: nat) {
    r * whole as real == 100.0 * part as real
  }

  lemma RatioBounds(c: nat, n: nat)
    requires 0 < n && c <= n
    ensures IsPercent((c as real / n as real) * 100.0, c, n)
    ensures 0.0 <= (c as real / n as real) * 100.0 <= 100.0
    ensures (c as real / n as real) * 100.0 == 100.0 <==> c == n
  {
    var q := c as real / n as real;
    assert q * n as real == c as real;
    if c == n {
      assert q == 1.0;
    } else {
      assert q * n as real < 1.0 * n as real;
      assert q < 1.0;
    }
  }

  /** `calculate_accuracy`: the percentage of typed characters that are
      correct, and 0 when nothing is typed. Under the length invariant it is
      exactly 100 when the input is a prefix of the target. */
  function Accuracy(e: Engine): (r: real)
    ensures 0.0 <= r <= 100.0
    ensures |e.input| == 0 ==> r == 0.0
    ensures |e.input| > 0 ==> IsPercent(r, CorrectChars(e), |e.input|)
    ensures Valid(e) && |e.input| > 0 ==> (r == 100.0 <==> e.input <= e.target)
  {
    if |e.input| == 0 then 0.0
    else
      var c := CorrectChars(e);
      RatioBounds(c, |e.input|);
      (c as real / |e.input| as real) * 100.0
  }

  /** The counts behind the statistics agree with the character display:
      errors are the `Incorrect` entries, correct characters the `Correct`
      entries, and the untyped rest of the target is `Pending`. */
  lemma {:induction false} CountsMatchStatus(target: string, input: string)
    ensures CountStatus(Classify(target, input), Incorrect) == MismatchCount(input, target)
    ensures CountStatus(Classify(target, input), Correct) == MatchCount(input, target)
    ensures CountStatus(Classify(target, input), Pending) == |target| - Min(|input|, |target|)
    decreases |target|
  {
    if |target| == 0 {
    } else {
      var tail := if |input| == 0 then input else input[1..];
      CountsMatchStatus(target[1..], tail);
      var r := Classify(target, input);
      assert r[1..] == Classify(target[1..], tail);
    }
  }

  lemma ErrorsAreIncorrectEntries(e: Engine)
    ensures Errors(e) == CountStatus(CharStatus(e), Incorrect)
    ensures CorrectChars(e) == CountStatus(CharStatus(e), Correct)
    ensures CountStatus(CharStatus(e), Pending) == |e.target| - Min(|e.input|, |e.target|)
  {
    CountsMatchStatus(e.target, e.input);
  }

  // ---------------------------------------------------------------------
  // Timing

  /** A rate of `r` words per minute sustained for `seconds` seconds
      accounts for exactly `words` words. */
  predicate Accounts(r: real, words: nat, seconds: real) {
    r * seconds == 60.0 * words as real
  }

  /** Words per minute for `words` tokens over `elapsed` seconds, with the
      source's guards: 0 for zero elapsed time and for non-positive minutes. */
  function Rate(words: nat, elapsed: real): (r: real)
    ensures r >= 0.0
    ensures elapsed <= 0.0 ==> r == 0.0
    ensures elapsed > 0.0 ==> Accounts(r, words, elapsed)
  {
    if elapsed == 0.0 then 0.0
    else
      var minutes := elapsed / 60.0;
      if minutes > 0.0 then
        assert minutes * 60.0 == elapsed;
        words as real / minutes
      else 0.0
  }

  /** `calculate_wpm`: whitespace tokens typed per minute between start and
      end; 0 unless both timestamps are set and the end is after the start. */
  function Wpm(e: Engine): (r: real)
    ensures r >= 0.0
    ensures !IsSet(e.startTime) || !IsSet(e.endTime) ==> r == 0.0
    ensures IsSet(e.startTime) && IsSet(e.endTime) && e.endTime.value <= e.startTime.value ==> r == 0.0
    ensures IsSet(e.startTime) && IsSet(e.endTime) && e.endTime.value > e.startTime.value ==>
              Accounts(r, |Words(e.input)|, e.endTime.value - e.startTime.value)
  {
    if !IsSet(e.startTime) || !IsSet(e.endTime) then 0.0
    else
      var words := |Words(e.input)|;
      var elapsed := e.endTime.value - e.startTime.value;
      Rate(words, elapsed)
  }

  /** `get_live_wpm`: the same rate measured up to `now`; only the start
      needs to be set. */
  function LiveWpm(e: Engine, now: real): (r: real)
    ensures r >= 0.0
    ensures !IsSet(e.startTime) ==> r == 0.0
    ensures IsSet(e.startTime) && now <= e.startTime.value ==> r == 0.0
    ensures IsSet(e.startTime) && now > e.startTime.value ==>
              Accounts(r, |Words(e.input)|, now - e.startTime.value)
  {
    if !IsSet(e.startTime) then 0.0
    else
      var words := |Words(e.input)|;
      var elapsed := now - e.startTime.value;
      Rate(words, elapsed)
  }

  /** `get_elapsed_time`: seconds since the start, up to the end if it is
      set and up to `now` otherwise; 0 before the start. */
  function ElapsedTime(e: Engine, now: real): (r: real)
    ensures !IsSet(e.startTime) ==> r == 0.0
    ensures IsSet(e.startTime) && IsSet(e.endTime) ==> r + e.startTime.value == e.endTime.value
    ensures IsSet(e.startTime) && !IsSet(e.endTime) ==> r + e.startTime.value == now
  {
    if !IsSet(e.startTime) then 0.0
    else (if IsSet(e.endTime) then e.endTime.value else now) - e.startTime.value
  }

  /** The live rate at `now` is the final rate of the session ended at
      `now` (a reading of `0.0` is excluded: it would count as unset). */
  lemma LiveWpmIsWpmEndedNow(e: Engine, now: real)
    requires IsSet(e.startTime) && now != 0.0
    ensures LiveWpm(e, now) == Wpm(End(e, now))
  {
  }

  /** Once the session has ended, the final rate is the word count over the
      elapsed minutes reported by `get_elapsed_time`, whatever `now` is. */
  lemma WpmOverElapsed(e: Engine, now: real)
    requires IsSet(e.startTime) && IsSet(e.endTime)
    requires ElapsedTime(e, now) > 0.0
    ensures Accounts(Wpm(e), |Words(e.input)|, ElapsedTime(e, now))
  {
    assert ElapsedTime(e, now) == e.endTime.value - e.startTime.value;
  }

  // ---------------------------------------------------------------------
  // Per-word report

  /** The per-word accuracy: matching positions over the target word's
      length, in percent; 0 for an empty target word. */
  function WordAccuracy(targetWord: string, typedWord: string): (r: real)
    ensures 0.0 <= r <= 100.0
    ensures |targetWord| > 0 && typedWord == targetWord ==> r == 100.0
    ensures |targetWord| == 0 ==> r == 0.0
    ensures |targetWord| > 0 ==> IsPercent(r, MatchCount(typedWord, targetWord), |targetWord|)
  {
    if |targetWord| == 0 then 0.0
    else
      var c := MatchCount(typedWord, targetWord);
      RatioBounds(c, |targetWord|);
      (c as real / |targetWord| as real) * 100.0
  }

  /** The report entry for target word `i`: compared with user word `i`
      when there is one, and an empty miss otherwise. */
  function Entry(targetWords: seq<string>, userWords: seq<string>, i: nat): (r: WordEntry)
    requires i < |targetWords|
    ensures r.word == targetWords[i]
    ensures 0.0 <= r.accuracy <= 100.0
    ensures r.correct ==> r.typed == r.word
    ensures r.correct && |r.word| > 0 ==> r.accuracy == 100.0
    ensures i >= |userWords| ==> r.typed == [] && r.accuracy == 0.0 && !r.correct
    ensures i < |userWords| ==> r.typed == userWords[i]
    ensures i < |userWords| ==> (r.correct <==> userWords[i] == targetWords[i])
    ensures i < |userWords| ==> r.accuracy == WordAccuracy(targetWords[i], userWords[i])
  {
    if i < |userWords| then
      WordEntry(targetWords[i], userWords[i], WordAccuracy(targetWords[i], userWords[i]),
                userWords[i] == targetWords[i])
    else
      WordEntry(targetWords[i], [], 0.0, false)
  }

  /** `get_word_history`: one entry per target token, in order, compared
      token-by-token with the typed tokens. */
  function WordHistory(e: Engine): (h: seq<WordEntry>)
    ensures |h| == |Words(e.target)|
    ensures forall i :: 0 <= i < |h| ==> h[i].word == Words(e.target)[i]
    ensures forall i :: 0 <= i < |h| && i >= |Words(e.input)| ==>
              h[i].typed == [] && h[i].accuracy == 0.0 && !h[i].correct
    ensures forall i :: 0 <= i < |h| && i < |Words(e.input)| ==>
              h[i].typed == Words(e.input)[i] && (h[i].correct <==> Words(e.input)[i] == Words(e.target)[i])
    ensures forall i :: 0 <= i < |h| ==> 0.0 <= h[i].accuracy <= 100.0
    ensures forall i :: 0 <= i < |h| && h[i].correct ==> h[i].accuracy == 100.0
    ensures forall i :: 0 <= i < |h| && i < |Words(e.input)| ==>
              h[i].accuracy == WordAccuracy(Words(e.target)[i], Words(e.input)[i])
  {
    var tw := Words(e.target);
    var uw := Words(e.input);
    seq(|tw|, i requires 0 <= i < |tw| => Entry(tw, uw, i))
  }
}
