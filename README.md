# Character quiz: session state machine and image-folder checker

This project models the two pieces of the character quiz that decide anything.

- **The quiz page** (`app.py`). The page keeps its state in the browser session's store. Each run of the page script does the following:
  - On the first run only, it takes the `.png` names of the images folder, shuffles them, and zeroes the counters.
  - It stops when there are no images.
  - It scores a submitted guess against the current file name without its extension. The guess is stripped first, and case matters.
  - It moves to the next question when "next" is clicked, or finishes on the last question.
  - On the final screen, the restart button deletes every session key.
- **The image-folder checker** (`check_images.py`). It walks the images folder and sorts each regular file with a supported suffix into decodable (`valid_images`) or broken (`invalid_images`). It warns about other suffixes and ignores the rest. It reports when fewer than 50 images decode.

Layout:

- `text.dfy`, module `Text`: ASCII `str.strip()`, `str.lower()` and `str.endswith()`.
- `filenames.dfy`, module `FileNames`: `str.rfind`, `os.path.splitext`, `Path.suffix`, and the quiz's `.png` filter.
- `quiz.dfy`, module `Quiz`: class `QuizSession`.
  - Its fields are the session values `image_list`, `current_idx`, `score`, `answered`, `user_answer` and `finished`.
  - A `keys` field holds the set of keys present in the store.
  - A ghost `outcomes` field records whether each answered question was right.
  - `Valid()` is the invariant every transition keeps. A started session with images has `0 <= score <= current_idx + 1 <= len(image_list)`. A started session with an empty list keeps `current_idx = 0` and `answered = false`. `score` is the number of right answers. `user_answer` is empty while the question is unanswered. `finished` holds only once the last question has been answered.
  - There is one method per block of the page script (`FinalScreen` for the final screen, `Play` for the question screen). `Run` performs one whole pass of the script for one user event.
- `check_images.dfy`, module `ImageCheck`: the checker loop as a method. It is proved against `Filed`, a specification function that gives the names filed in each bin, in iteration order. Lemmas state order, completeness, counts and compositionality.

Inputs that come from outside are parameters:

- the directory listing: `seq<string>` for the quiz, a sequence of `Entry(name, isFile)` for the checker;
- whether the folder exists;
- whether a file decodes, as `decodes: string -> bool`;
- the user event (form submitted with some text, "next" clicked, restart clicked).

`random.shuffle` is modelled as a choice of any permutation.

How the page scores answers:

- The answer comparison (app.py:59-60) strips the input and then compares it **exactly**. It does not lower-case, so the lower-cased form of an answer holding a capital letter is wrong (`Quiz.CaseMatters`).
- Only the guess is stripped, not the answer. A file whose answer starts or ends with whitespace, such as `Pikachu .png`, can never be answered right (`Quiz.UntrimmedAnswerUnreachable`).
- A submitted blank input is scored as a wrong answer (`Quiz.BlankGuessIsWrong`).
- The page keeps no record of past answers. The ghost `outcomes` field records them only for the proofs.

## Model

| member | source | states |
|---|---|---|
| `Text.TrimStartSpec` | app.py:59 | the leading-whitespace half of `str.strip()` removes exactly the longest all-space prefix |
| `Text.TrimEndSpec` | app.py:59 | the trailing-whitespace half of `str.strip()` removes exactly the longest all-space suffix |
| `Text.Strip` | app.py:59 | `str.strip()` gives a result no longer than the input, with no whitespace at either end |
| `Text.StripPadded` | app.py:59 | stripping undoes padding: any whitespace around a trimmed string is removed and the string itself is kept intact |
| `Text.StripEmpty` | app.py:59 | the stripped input is empty exactly when the input is all whitespace |
| `Text.StripIdempotent` | app.py:59 | stripping an already stripped input changes nothing |
| `Text.Lower` | app.py:13 | `str.lower()` keeps the length and maps each character on its own, so only A-Z change |
| `Text.LowerAppend` | check_images.py:27 | lower-casing distributes over concatenation, so the lowered suffix is the suffix of the lowered name |
| `FileNames.SplitExt` | app.py:45 | `os.path.splitext`: the stem and the extension concatenate back to the name; a non-empty extension starts with its only dot and has a non-dot character somewhere before it |
| `FileNames.SplitExtNoExtension` | app.py:45 | the extension is empty only when every dot in the name has only dots before it |
| `FileNames.Stem` | app.py:45 | the answer is a prefix of the file name |
| `FileNames.Suffix` | check_images.py:27 | `Path.suffix`: when non-empty, it ends the name, starts with its only dot, has at least one character after the dot and is shorter than the name |
| `FileNames.SuffixEmpty` | check_images.py:27 | the suffix is empty exactly when every dot strictly inside the name has a later dot after it |
| `FileNames.PngStem` | app.py:44-45 | for a `.png` name with a non-dot character before the extension, the answer is the name minus its last four characters |
| `Quiz.PngNames` | app.py:13 | the comprehension keeps each name whose lower-cased form ends in `.png`, with its multiplicity, and drops every other name |
| `Quiz.ShuffledPngNames` | app.py:13-14 | any shuffle of the `.png` names holds exactly the listing's names that end in `.png` in any case |
| `Quiz.CountCorrect` | app.py:60-61 | the score counts right answers: it never exceeds the number of questions answered, and equals it exactly when every answer was right |
| `Quiz.QuizSession.constructor` | app.py:11 | a new browser session holds no keys, so the next run sets it up |
| `Quiz.QuizSession.InitState` | app.py:10-19 | on a session without `image_list`: the keys appear, `image_list` is a permutation of the `.png` names of the listing, `current_idx = 0`, `score = 0`, `answered = false`, `user_answer = ""`, `finished = false`; on a session that has it: nothing changes |
| `Quiz.QuizSession.Answer` | app.py:44-45 | the expected answer is the current file name with its extension removed |
| `Quiz.QuizSession.FinishIfPastEnd` | app.py:32-33 | `finished` becomes true when `current_idx >= len(image_list)` and nothing else changes; when the index is in range or the game is already over, the session is left exactly as it was (under the invariant the guard never fires) |
| `Quiz.QuizSession.Submit` | app.py:58-66 | an already answered question ignores the submission; otherwise `user_answer` is the stripped input, `answered` becomes true, `score` rises by exactly 1 when the stripped input equals the answer exactly (case-sensitive) and is unchanged otherwise, and the feedback names the expected answer on a miss |
| `Quiz.QuizSession.Advance` | app.py:69-78 | on an answered question that is not the last, clicking "next" adds 1 to `current_idx`, clears `answered` and `user_answer` and changes nothing else; answering the last question sets `finished` at once; otherwise nothing changes |
| `Quiz.QuizSession.Restart` | app.py:38-41 | deletes every session key, extra ones included, so the next run starts a new game |
| `Quiz.QuizSession.FinalScreen` | app.py:36-41 | the final screen shows the score and the total, the score is at most the total, the restart button empties the store, and any other event leaves the keys as they were |
| `Quiz.QuizSession.Play` | app.py:42-78 | the question screen shows question `current_idx + 1` with the submission's feedback; `score` rises by 1 exactly for a first submission that strips to the answer; `current_idx` rises by 1 exactly for "next" on an answered question that is not the last, which also clears the answer; the game finishes once the last question is answered (in that run the page also carries the feedback, but the script reruns at once and shows the final screen instead, app.py:76-78); anything else (an idle run, a repeated submission) changes nothing |
| `Quiz.QuizSession.Run` | app.py:22-78 | one script run keeps the invariant. Given a listing of the folder, a new session becomes started with a permutation of the `.png` names; if that list is non-empty, it shows question 1, and only a submission changes anything: it is scored, and it ends a one-question game at once. An empty list halts with no question shown, and a started session without images stays exactly as it was. A finished game shows the final screen with the unchanged score and total; restart empties the store and any other event changes nothing. A game in progress moves exactly as `Play` states: the score, index, answer, answered flag, finished flag and page are given for every event |
| `Quiz.PikachuAnswer` | app.py:45 | the answer for `Pikachu.png` is `Pikachu` |
| `Quiz.BlanksDoNotMatter` | app.py:59-60 | for every file whose answer has no whitespace at either end, the answer padded with any whitespace on both sides is scored right |
| `Quiz.UntrimmedAnswerUnreachable` | app.py:59-60 | for every file whose answer starts or ends with whitespace, no input is ever scored right, because only the guess is stripped |
| `Quiz.CaseMatters` | app.py:59-60 | for every file whose answer holds a letter A-Z, the lower-cased answer is scored wrong, because the comparison is case-sensitive |
| `Quiz.PikachuPadded` | app.py:59-60 | an instance: " Pikachu " is right for `Pikachu.png` |
| `Quiz.PikachuLowered` | app.py:59-60 | an instance: "pikachu" is wrong for `Pikachu.png` |
| `Quiz.BlankGuessIsWrong` | app.py:58-60 | a blank submission is never right, because the answer for a non-empty file name is never empty |
| `Quiz.ScoreBounds` | app.py:69-77 | in every reachable session with images, `0 <= score <= current_idx + 1 <= len(image_list)`; a score of `current_idx + 1` implies the current question is answered; a finished game's score is at most the number of questions |
| `ImageCheck.BinMeaning` | check_images.py:25-50 | a regular file with one of the six supported lower-cased suffixes is decoded or corrupt, according to whether it decodes; a regular file with another non-empty suffix is warned about; a non-file or a file without a suffix is ignored |
| `ImageCheck.FiledStep` | check_images.py:25-50 | looking at one more entry adds its name to the end of its own bin's list and leaves the other lists as they were |
| `ImageCheck.CheckImagesFolder` | check_images.py:11-63 | a missing folder ends the check before any entry is looked at; otherwise the valid, invalid and unsupported lists are exactly the names filed in those bins, in iteration order, and the low-count warning is issued exactly when fewer than 50 images decoded |
| `ImageCheck.FiledInOrder` | check_images.py:42-47 | each list holds the names of the entries of its bin at strictly increasing positions, and no entry of that bin is missing |
| `ImageCheck.FiledAppend` | check_images.py:30-47 | filing is compositional, so a failed decode earlier in the folder does not change how later entries are filed |
| `ImageCheck.FiledCounts` | check_images.py:42-47 | `len(valid_images) + len(invalid_images)` equals the number of candidate files, and the four bins together account for every entry exactly once |
| `ImageCheck.FiledMembership` | check_images.py:27-50 | every candidate that decodes is in `valid_images`, every candidate that fails is in `invalid_images`, and every file with an unsupported non-empty suffix is in the warned list |
| `ImageCheck.PngSuffixIsQuizzed` | check_images.py:27-29 | a file the checker treats as `.png` is also one the quiz asks about |
| `ImageCheck.DotPngOnlyQuizzed` | check_images.py:27 | the converse fails: a file named `.png` is quizzed but ignored by the checker, because its only dot is its first character |

## Left out

- Rendering and widgets are left out because they are presentation only. This covers the title, the image, the form, the buttons, success and error messages, `st.rerun` and `st.stop`. Button presses and form submissions are the `Event` given to `Run`, and a rerun is the next call of `Run`.
- Reading the folder is left out because it is I/O. This covers `os.listdir`, `Path.iterdir`, `os.path.exists` and `is_file`. Their results are parameters.
- `Quiz.QuizSession.InitState`, `Quiz.QuizSession.Run`: the failure of `os.listdir` at app.py:13 when the folder is missing is not modelled. In the source it raises `FileNotFoundError` before `image_list` is set, so the session stays unstarted. The model always receives a listing, so a new session always becomes started.
- `ImageCheck.CheckImagesFolder`: the failure of `Path.iterdir` at check_images.py:25 is not modelled. It raises `NotADirectoryError` when `images` exists but is not a directory, because the existence test at check_images.py:15 passes for a file. In the model an existing folder always yields a `Checked` report.
- Pages discarded by `st.rerun()` (app.py:75, app.py:78) are not distinguished. `Run` returns the page the script built before the rerun. After the last answer that page is a question with its feedback, which Streamlit replaces at once with the final tally.
- `random.shuffle` is left out because it is random. The model allows any permutation and says nothing about the distribution.
- The PIL library is left out because it is a foreign library. This covers `Image.open`, `img.verify`, and reading the size, mode and format. Whether a file decodes is the parameter `decodes`. An image that fails to open when the quiz shows it (app.py:47) is not modelled.
- All printed output of the checker is left out because it is I/O only. This includes the messages and the supported-format line. The warned-about names are kept as the `unsupported` list.
- `Text.Strip`, `Text.Lower`: only ASCII whitespace (9-13, 28-31, space) and the letters A-Z are covered. Python's Unicode whitespace and case mapping are not modelled.
- `FileNames.SplitExt`, `FileNames.Suffix`: these work on a bare file name. The directory-separator handling of the library functions is not modelled, because entry names contain no separator.
- `FileNames.Suffix`: this is the `Path.suffix` rule of Python 3.13 and earlier: the text from the last dot, provided that dot is neither the first nor the last character. Python 3.14 also counts a trailing single dot as a suffix. That newer rule is not modelled.
- `Quiz.QuizSession.Restart`: the deleted values stay in the fields, and no method reads them. They no longer belong to the session because their keys are gone, and the next `InitState` overwrites them.
- Streamlit's own keys, such as form-submitter state, are not named. `keys` may hold any extra keys, and `Restart` deletes them too.

