/** `generarCodigoQuiz`: draw a six-digit number, ask the quiz collection
    whether some quiz already holds it as its access code, and draw again
    until one is free.

    `Math.random` is replaced by the sequence of values it returns, each in
    [0, 1). The source loop has no bound; the model asks that some value in
    the sequence gives a free code, which is what makes the source loop end. */
module AccessCode {
  import opened Wrappers
  import opened Models
  import Text

  /** `Math.floor(100000 + r * 900000)`. */
  function Candidate(r: real): int {
    (100000.0 + r * 900000.0).Floor
  }

  /** Every candidate has exactly six decimal digits. */
  lemma CandidateInRange(r: real)
    requires 0.0 <= r < 1.0
    ensures 100000 <= Candidate(r) <= 999999
  {
    var x := 100000.0 + r * 900000.0;
    assert 100000.0 <= x < 1000000.0;
  }

  /** The candidate's `toString()`. */
  function CandidateText(r: real): (code: string)
    requires 0.0 <= r < 1.0
    ensures |code| == 6 && Text.AllDigits(code) && code[0] != '0'
  {
    CandidateInRange(r);
    Text.SixDigitText(Candidate(r));
    Text.NatToString(Candidate(r))
  }

  /** `Quiz.findOne({ codigoAcceso: code })` finds something. */
  predicate CodeTaken(quizzes: map<Id, Quiz>, code: string) {
    exists k :: k in quizzes && quizzes[k].codigoAcceso == Some(code)
  }

  predicate DrawsInRange(draws: seq<real>) {
    forall i :: 0 <= i < |draws| ==> 0.0 <= draws[i] < 1.0
  }

  /** Some draw gives a code that no quiz holds. */
  predicate SomeDrawFree(quizzes: map<Id, Quiz>, draws: seq<real>)
    requires DrawsInRange(draws)
  {
    exists i :: 0 <= i < |draws| && !CodeTaken(quizzes, CandidateText(draws[i]))
  }

  /** Reference definition: the position of the first draw whose code is
      free, counting from `from`. */
  function FirstFreeDraw(quizzes: map<Id, Quiz>, draws: seq<real>, from: nat): (k: nat)
    requires DrawsInRange(draws)
    requires exists i :: from <= i < |draws| && !CodeTaken(quizzes, CandidateText(draws[i]))
    ensures from <= k < |draws| && !CodeTaken(quizzes, CandidateText(draws[k]))
    ensures forall j :: from <= j < k ==> CodeTaken(quizzes, CandidateText(draws[j]))
    decreases |draws| - from
  {
    if !CodeTaken(quizzes, CandidateText(draws[from])) then from
    else FirstFreeDraw(quizzes, draws, from + 1)
  }

  /** The retry loop. It only reads the quizzes. The returned code is six
      digits with no leading zero and held by no quiz; it is the code of the
      first free draw, every earlier draw having collided. */
  method GenerarCodigo(quizzes: map<Id, Quiz>, draws: seq<real>) returns (code: string, used: nat)
    requires DrawsInRange(draws)
    requires SomeDrawFree(quizzes, draws)
    ensures used < |draws| && code == CandidateText(draws[used])
    ensures used == FirstFreeDraw(quizzes, draws, 0)
    ensures |code| == 6 && Text.AllDigits(code) && code[0] != '0'
    ensures !CodeTaken(quizzes, code)
    ensures forall j :: 0 <= j < used ==> CodeTaken(quizzes, CandidateText(draws[j]))
  {
    used := 0;
    code := CandidateText(draws[0]);
    while CodeTaken(quizzes, code)
      invariant used < |draws| && code == CandidateText(draws[used])
      invariant forall j :: 0 <= j < used ==> CodeTaken(quizzes, CandidateText(draws[j]))
      invariant exists i :: used <= i < |draws| && !CodeTaken(quizzes, CandidateText(draws[i]))
      decreases |draws| - used
    {
      used := used + 1;
      code := CandidateText(draws[used]);
    }
    FirstFreeIsFirst(quizzes, draws, used);
  }

  /** A free draw preceded only by collisions is the first free draw. */
  lemma FirstFreeIsFirst(quizzes: map<Id, Quiz>, draws: seq<real>, k: nat)
    requires DrawsInRange(draws)
    requires k < |draws| && !CodeTaken(quizzes, CandidateText(draws[k]))
    requires forall j :: 0 <= j < k ==> CodeTaken(quizzes, CandidateText(draws[j]))
    ensures FirstFreeDraw(quizzes, draws, 0) == k
  {
  }
}
