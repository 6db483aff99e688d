/** The quiz page: the session state the page keeps between script runs and
    the transitions each block of the page script applies to it. */
module Quiz {
  import opened Text
  import opened FileNames

  /** The key whose presence tells the page the session has been set up. */
  const ImageListKey := "image_list"

  /** Every key the page stores in the session. */
  const SessionKeys: set<string> :=
    {ImageListKey, "current_idx", "score", "answered", "user_answer", "finished"}

  /** The names of a directory listing that the quiz uses as questions, in
      listing order: those whose lower-cased name ends with ".png". */
  function PngNames(listing: seq<string>): (r: seq<string>)
    ensures forall f :: multiset(r)[f] == if IsPngName(f) then multiset(listing)[f] else 0
  {
    if listing == [] then []
    else
      assert listing == [listing[0]] + listing[1..];
      (if IsPngName(listing[0]) then [listing[0]] else []) + PngNames(listing[1..])
  }

  /** Any order of the ".png" names holds exactly the ".png" names of the listing. */
  lemma ShuffledPngNames(listing: seq<string>, order: seq<string>)
    requires multiset(order) == multiset(PngNames(listing))
    ensures forall f :: f in order <==> f in listing && IsPngName(f)
  {
    forall f ensures f in order <==> f in listing && IsPngName(f) {
      assert f in order <==> multiset(order)[f] > 0;
      assert f in listing <==> multiset(listing)[f] > 0;
    }
  }

  /** The number of correct answers in a run of answer outcomes. */
  function CountCorrect(outcomes: seq<bool>): (n: nat)
    ensures n <= |outcomes|
    ensures n == |outcomes| <==> forall k :: 0 <= k < |outcomes| ==> outcomes[k]
  {
    if outcomes == [] then 0
    else CountCorrect(outcomes[..|outcomes| - 1]) + (if outcomes[|outcomes| - 1] then 1 else 0)
  }

  /** What the page says right after a submission. */
  datatype Feedback = NoFeedback | Correct | Wrong(expected: string)

  /** What one run of the page script shows. A run that ends by rerunning
      the script (after "next", or after the last answer) has its page
      replaced at once by the next run's page. */
  datatype Page =
    | NoImages                                          // error message, script stopped
    | GameOver(score: int, total: int)                  // final tally and a restart button
    | Question(number: int, total: int, feedback: Feedback)

  /** The user interaction that triggered a run of the page script. */
  datatype Event = Idle | SubmitForm(text: string) | ClickNext | ClickRestart

  /** The session store of one browser session. Each field stands for the
      session value of the same name; `keys` is the set of keys the store holds,
      so a field whose key is absent is not part of the session. */
  class QuizSession {
    var keys: set<string>
    var imageList: seq<string>
    var currentIdx: int
    var score: int
    var answered: bool
    var userAnswer: string
    var finished: bool
    /** The outcome of every question answered so far, in order. */
    ghost var outcomes: seq<bool>

    /** Whether `init_state` has set the session up. */
    predicate Started()
      reads this
    {
      ImageListKey in keys
    }

    ghost predicate Valid()
      reads this
    {
      && (if Started() then SessionKeys <= keys else keys !! SessionKeys)
      && (Started() ==>
            && 0 <= currentIdx
            && (imageList == [] ==> currentIdx == 0 && !answered)
            && (imageList != [] ==> currentIdx < |imageList|)
            && |outcomes| == currentIdx + (if answered then 1 else 0)
            && score == CountCorrect(outcomes)
            && (answered ==> outcomes[currentIdx] == (userAnswer == Stem(imageList[currentIdx])))
            && (!answered ==> userAnswer == "")
            && (finished ==> answered && currentIdx == |imageList| - 1))
    }

    /** A fresh browser session: the store holds no keys. */
    constructor ()
      ensures Valid() && keys == {}
    {
      keys := {};
      imageList, currentIdx, score := [], 0, 0;
      answered, userAnswer, finished := false, "", false;
      outcomes := [];
    }

    /** `init_state`: on the first run of a session, take the ".png" names of
        the listing in a random order and zero the counters; on later runs,
        leave the session alone. */
    method InitState(listing: seq<string>)
      requires Valid()
      modifies this
      ensures Valid() && Started()
      ensures old(Started()) ==> unchanged(this)
      ensures !old(Started()) ==>
        && keys == old(keys) + SessionKeys
        && multiset(imageList) == multiset(PngNames(listing))
        && currentIdx == 0 && score == 0 && !answered && userAnswer == "" && !finished
        && outcomes == []
    {
      if ImageListKey !in keys {
        var pngs := PngNames(listing);
        // random.shuffle: any permutation may come out
        var shuffled :| multiset(shuffled) == multiset(pngs);
        imageList := shuffled;
        currentIdx := 0;
        score := 0;
        answered := false;
        userAnswer := "";
        finished := false;
        keys := keys + SessionKeys;
        outcomes := [];
      }
    }

    /** The expected answer for the question on screen: its file name without
        the extension. */
    function Answer(): (answer: string)
      reads this
      requires Started() && 0 <= currentIdx < |imageList|
      ensures answer + SplitExt(imageList[currentIdx]).1 == imageList[currentIdx]
    {
      Stem(imageList[currentIdx])
    }

    /** The guard after the empty-list check: an index past the end finishes
        the game. */
    method FinishIfPastEnd()
      requires Valid() && Started() && imageList != []
      modifies this
      ensures Valid()
      ensures finished == (old(finished) || currentIdx >= |imageList|)
      ensures keys == old(keys) && imageList == old(imageList) && currentIdx == old(currentIdx)
      ensures score == old(score) && answered == old(answered) && userAnswer == old(userAnswer)
      ensures outcomes == old(outcomes)
      ensures old(finished) || currentIdx < |imageList| ==> unchanged(this)
    {
      finished := finished || currentIdx >= |imageList|;
    }

    /** Submitting the answer form. Ignored once the question is answered;
        otherwise the stripped input is kept, compared exactly (case matters)
        with the answer, scored, and the question marked answered. */
    method Submit(text: string) returns (feedback: Feedback)
      requires Valid() && Started() && imageList != [] && !finished
      modifies this
      ensures Valid()
      ensures keys == old(keys) && imageList == old(imageList)
      ensures currentIdx == old(currentIdx) && finished == old(finished)
      ensures old(answered) ==> unchanged(this) && feedback == NoFeedback
      ensures !old(answered) ==>
        && answered
        && userAnswer == Strip(text)
        && score == old(score) + (if Strip(text) == Answer() then 1 else 0)
        && outcomes == old(outcomes) + [Strip(text) == Answer()]
        && feedback == (if Strip(text) == Answer() then Correct else Wrong(Answer()))
    {
      feedback := NoFeedback;
      if !answered {
        var answer := Stem(imageList[currentIdx]);
        userAnswer := Strip(text);
        var right := userAnswer == answer;
        if right {
          score := score + 1;
          feedback := Correct;
        } else {
          feedback := Wrong(answer);
        }
        answered := true;
        ghost var before := outcomes;
        outcomes := outcomes + [right];
        assert outcomes[..|outcomes| - 1] == before;
      }
    }

    /** The block after the form. Once answered, a question that is not the
        last moves on when "next" is clicked (clearing the answer); the last
        one finishes the game at once. */
    method Advance(nextClicked: bool)
      requires Valid() && Started() && imageList != [] && !finished
      modifies this
      ensures Valid()
      ensures keys == old(keys) && imageList == old(imageList) && score == old(score)
      ensures outcomes == old(outcomes)
      ensures old(answered) && old(currentIdx) < |imageList| - 1 && nextClicked ==>
        currentIdx == old(currentIdx) + 1 && !answered && userAnswer == "" && !finished
      ensures old(answered) && old(currentIdx) >= |imageList| - 1 ==>
        finished && currentIdx == old(currentIdx) == |imageList| - 1
        && answered && userAnswer == old(userAnswer)
      ensures !old(answered) || (old(currentIdx) < |imageList| - 1 && !nextClicked) ==>
        unchanged(this)
    {
      if answered {
        if currentIdx < |imageList| - 1 {
          if nextClicked {
            currentIdx := currentIdx + 1;
            answered := false;
            userAnswer := "";
          }
        } else {
          finished := true;
        }
      }
    }

    /** The restart button on the final screen: delete every key of the
        session, so the next run sets the session up afresh. */
    method Restart()
      requires Valid() && Started() && finished
      modifies this`keys
      ensures Valid() && keys == {}
    {
      var pending := keys;
      while pending != {}
        invariant keys == pending
        decreases |pending|
      {
        var key :| key in pending;
        keys := keys - {key};
        pending := pending - {key};
      }
    }

    /** The final screen: it shows the tally, and the restart button
        deletes every key of the session. */
    method FinalScreen(event: Event) returns (page: Page)
      requires Valid() && Started() && imageList != [] && finished
      modifies this`keys
      ensures Valid()
      ensures page == GameOver(score, |imageList|) && score <= |imageList|
      ensures event == ClickRestart ==> keys == {}
      ensures event != ClickRestart ==> keys == old(keys)
    {
      page := GameOver(score, |imageList|);
      if event == ClickRestart {
        Restart();
      }
    }

    /** The question screen: show the question, take a submission if there
        is one, then move on or finish. One submission is scored, one "next"
        on an answered question moves on, and anything else (an idle run, a
        repeated submission) changes nothing. */
    method Play(event: Event) returns (page: Page)
      requires Valid() && Started() && imageList != [] && !finished
      modifies this
      ensures Valid()
      ensures
        var answer := Stem(old(imageList)[old(currentIdx)]);
        var submitted := event.SubmitForm? && !old(answered);
        var right := submitted && Strip(event.text) == answer;
        var moved := event == ClickNext && old(answered) && old(currentIdx) < |old(imageList)| - 1;
        && keys == old(keys) && imageList == old(imageList)
        && page == Question(old(currentIdx) + 1, |imageList|,
                            if !submitted then NoFeedback else if right then Correct else Wrong(answer))
        && score == old(score) + (if right then 1 else 0)
        && currentIdx == old(currentIdx) + (if moved then 1 else 0)
        && answered == ((old(answered) || submitted) && !moved)
        && userAnswer == (if moved then "" else if submitted then Strip(event.text) else old(userAnswer))
        && finished == ((old(answered) || submitted) && old(currentIdx) == |imageList| - 1)
    {
      var feedback := NoFeedback;
      if event.SubmitForm? {
        feedback := Submit(event.text);
      }
      page := Question(currentIdx + 1, |imageList|, feedback);
      Advance(event == ClickNext);
    }

    /** One run of the page script, triggered by `event`, with `listing` the
        current content of the images folder. */
    method Run(listing: seq<string>, event: Event) returns (page: Page)
      requires Valid()
      modifies this
      ensures Valid()
      ensures !old(Started()) ==> Started() && multiset(imageList) == multiset(PngNames(listing))
      ensures page == NoImages <==> imageList == []
      ensures page.GameOver? ==> finished && page.score == score <= page.total == |imageList|
      ensures page.GameOver? && event == ClickRestart ==> keys == {}
      ensures page.GameOver? && event != ClickRestart ==> Started()
      ensures page.Question? ==>
        && Started() && imageList != []
        && 1 <= page.number <= page.total == |imageList|
        && (page.feedback != NoFeedback ==> event.SubmitForm? && userAnswer == Strip(event.text))
      // A game in progress: one submission is scored, one "next" moves on,
      // anything else (an idle run, a repeated submission) changes nothing.
      ensures old(Started()) && old(imageList) != [] && !old(finished) ==>
        var answer := Stem(old(imageList)[old(currentIdx)]);
        var submitted := event.SubmitForm? && !old(answered);
        var right := submitted && Strip(event.text) == answer;
        var moved := event == ClickNext && old(answered) && old(currentIdx) < |old(imageList)| - 1;
        && keys == old(keys) && imageList == old(imageList)
        && page == Question(old(currentIdx) + 1, |imageList|,
                            if !submitted then NoFeedback else if right then Correct else Wrong(answer))
        && score == old(score) + (if right then 1 else 0)
        && currentIdx == old(currentIdx) + (if moved then 1 else 0)
        && answered == ((old(answered) || submitted) && !moved)
        && userAnswer == (if moved then "" else if submitted then Strip(event.text) else old(userAnswer))
        && finished == ((old(answered) || submitted) && old(currentIdx) == |imageList| - 1)
      // A new game: only a submission on the first question can change anything,
      // and it ends a one-question game at once.
      ensures !old(Started()) && imageList != [] ==>
        var right := event.SubmitForm? && Strip(event.text) == Stem(imageList[0]);
        && page == Question(1, |imageList|,
                            if !event.SubmitForm? then NoFeedback
                            else if right then Correct else Wrong(Stem(imageList[0])))
        && currentIdx == 0
        && score == (if right then 1 else 0)
        && answered == event.SubmitForm?
        && userAnswer == (if event.SubmitForm? then Strip(event.text) else "")
        && finished == (event.SubmitForm? && |imageList| == 1)
      // The final screen shows the tally and changes nothing unless restart
      // is clicked, which empties the store.
      ensures old(Started()) && old(imageList) != [] && old(finished) ==>
        && page == GameOver(old(score), |old(imageList)|)
        && (event == ClickRestart ==> keys == {} && imageList == old(imageList) && score == old(score))
        && (event != ClickRestart ==> unchanged(this))
      // A started game without images halts and stays as it is.
      ensures old(Started()) && old(imageList) == [] ==> unchanged(this)
    {
      InitState(listing);
      if imageList == [] {
        return NoImages;
      }
      FinishIfPastEnd();
      if finished {
        page := FinalScreen(event);
      } else {
        page := Play(event);
      }
    }
  }

  /** The answer for the file "Pikachu.png" is "Pikachu". */
  lemma PikachuAnswer(f: string)
    requires f == "Pikachu.png"
    ensures Stem(f) == "Pikachu"
  {
    var low := Lower(f);
    assert low[7..] == ".png" by {
      assert low[7] == '.' && low[8] == 'p' && low[9] == 'n' && low[10] == 'g';
    }
    assert f[..7] == "Pikachu" && f[..7][0] != '.';
    PngStem(f);
  }

  /** Blanks around a guess do not matter: any whitespace before and after
      the exact answer is stripped away, so the padded guess is right. */
  lemma BlanksDoNotMatter(f: string, pre: string, post: string)
    requires AllSpace(pre) && AllSpace(post) && Trimmed(Stem(f))
    ensures Strip(pre + Stem(f) + post) == Stem(f)
  {
    StripPadded(pre, Stem(f), post);
  }

  /** The guess is stripped but the answer is not: a file whose answer
      starts or ends with whitespace (such as "Pikachu .png") can never be
      answered right. */
  lemma UntrimmedAnswerUnreachable(f: string, text: string)
    requires !Trimmed(Stem(f))
    ensures Strip(text) != Stem(f)
  {
  }

  /** Letter case does matter: when the answer holds a letter A..Z at
      position `i`, its lower-cased form is a wrong guess. */
  lemma CaseMatters(f: string, i: nat)
    requires i < |Stem(f)| && 'A' <= Stem(f)[i] <= 'Z'
    ensures Strip(Lower(Stem(f))) != Stem(f)
  {
    var answer := Stem(f);
    var lowered := Lower(answer);
    if Trimmed(answer) {
      assert Trimmed(lowered);
      StripPadded([], lowered, []);
      assert [] + lowered + [] == lowered;
      assert lowered[i] != answer[i];
    }
  }

  /** For the file "Pikachu.png", the guess " Pikachu " is right. */
  lemma PikachuPadded(f: string, padded: string)
    requires f == "Pikachu.png" && padded == " Pikachu "
    ensures Strip(padded) == Stem(f)
  {
    var blank := " ";
    PikachuAnswer(f);
    assert padded == blank + Stem(f) + blank;
    BlanksDoNotMatter(f, blank, blank);
  }

  /** For the file "Pikachu.png", the guess "pikachu" is wrong. */
  lemma PikachuLowered(f: string, lowered: string)
    requires f == "Pikachu.png" && lowered == "pikachu"
    ensures Strip(lowered) != Stem(f)
  {
    PikachuAnswer(f);
    assert lowered[0] != Stem(f)[0];
    assert lowered == [] + lowered + [];
    StripPadded([], lowered, []);
  }

  /** A blank submission is never right: it strips to the empty string, and
      the answer for a non-empty file name is never empty. */
  lemma BlankGuessIsWrong(name: string, text: string)
    requires name != [] && AllSpace(text)
    ensures Strip(text) != Stem(name)
  {
    StripEmpty(text);
    var parts := SplitExt(name);
    if parts.1 != [] {
      var k :| 0 <= k < |parts.0| && parts.0[k] != '.';
    }
  }

  /** The counter invariant of a started session with questions:
      0 <= score <= current_idx + 1 <= len(image_list), and a finished game's
      score is at most the number of questions. */
  lemma ScoreBounds(s: QuizSession)
    requires s.Valid() && s.Started() && s.imageList != []
    ensures 0 <= s.score <= s.currentIdx + 1 <= |s.imageList|
    ensures s.score == s.currentIdx + 1 ==> s.answered
    ensures s.finished ==> s.score <= |s.imageList|
  {
  }
}
