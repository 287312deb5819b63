# A Dafny model of the announcement relay in `obavestenja.py`

`obavestenja.py` polls two pages of a school's website: the students'
timeline (`studenti`, `URL[0]`) and the announcements page (`obavestenja`,
`URL[1]`). It relays a changed announcement to a Telegram channel. Each
cycle does four things:

- It loads both pages, making up to sixteen attempts each.
- It fingerprints a region of each page.
- It compares the fingerprints with the stored ones.
- When one differs, it renders the announcement in Telegram's HTML dialect.
  It then sends it as a new message, or edits the last message when the
  title and body are close to the last relayed ones.

This project models that decision core and proves what it does.

| module | file | models |
|---|---|---|
| `Text` | text.dfy | Python's `str.replace`, plus `str.split` / `str.join` as an independent description of it |
| `Formatting` | formatting.dfy | `TelegramObavestenje.__init__`: the title rewrite and the body's tag-by-tag substitution loop |
| `Fetching` | fetching.dfy | `Sajt.__init__`: the bounded `for`/`else` retry loop |
| `Dispatch` | dispatch.dfy | `send_msg`, `edit`, `send_img`, and the image loop of `main` |
| `PollLoop` | poll_loop.dfy | `main`: one cycle (`Step`), finite runs (`RunFrom`), and the class `Watcher` whose fields are the loop's variables |

## How the outside world enters

- **Fetch attempts.** `tries(k)` is the outcome of the k-th `urlopen`. It is
  either the loaded page or a caught `URLError` / `RemoteDisconnected`.
- **Pages.** HTML parsing is not modelled. A page is given as what the
  selectors pick out, each `None` when nothing matches:
  - the fingerprinted region's markup;
  - the heading's markup;
  - the body element, as its plain text, its descendant tags in document
    order (each with name, `.string` and markup), and its `img` `src`
    values.
- **Fingerprint.** `digest` is any function from markup to string, standing
  for SHA-224 of `str(region)`.
- **Similarity.** `ratio` is any function into the reals between 0 and 1,
  standing for `SequenceMatcher.ratio()`. One lemma also assumes
  `FarFromEmpty`: a non-empty string scores below 0.85 against `""`.
  That is true of `SequenceMatcher`, whose ratio is then 0.
- **Telegram.** `api(k)` is the reply to the k-th Bot API call of a cycle.
  It is a delivered message, a `BadRequest`, or any other Telegram error.
- **Faults.** A crash ends the run with a `Fault`. The uncaught exceptions
  are `IndexError` (a selector matched nothing), `KeyError` (an `img`
  without `src`), `UnboundLocalError` (an edit before any message),
  `AttributeError` and other Telegram errors. `exit()` after sixteen failed
  fetches is `Exit`.

## Behaviour a reader might expect but the code does not have

The model follows the code in every case below.

- **No plain-text retry.** A reader might expect a rejected message to be
  resent as plain text. In `send_msg` and `edit`, the retry payload reads
  `self.html_sadrzaj.text` (obavestenja.py:103, :132), but `html_sadrzaj`
  is a `str`. So a `BadRequest` ends in `AttributeError` before a second
  call is made. Each of `send_msg` and `edit` makes exactly one API call.
- **The obavestenja edit handler never fires.**
  `except telegram.error.BadRequest: pass` around the edit
  (obavestenja.py:232-235) can never catch anything. It is modelled
  anyway, and `Dispatch.NoBadRequestEscapes` shows it is dead.
- **An image error after the message ends the run.** A reader might
  expect a failed image upload never to stop relaying. `send_img`
  (obavestenja.py:108-114) catches only `BadRequest`, so a network error,
  a timeout or a rate limit on any photo ends the process after the
  message has already been sent. `Dispatch.SendImages` stops with a
  Telegram error exactly then.
- **Failures are fatal.** A reader might expect a failed send or a page
  whose selectors match nothing to be logged and skipped. In the code,
  every uncaught exception ends the process, and the model stops the run.
- **No new-message fallback for a missing handle.** A reader might expect
  an edit without a previous message to send a new one instead. The code
  would raise `UnboundLocalError`. `PollLoop.MainNeverEditsUnbound` shows
  this cannot happen in a run started by `main`, under `FarFromEmpty` and
  non-empty heading markup.

## Model

| member | source | states |
|---|---|---|
| `Text.ReplaceAll` | obavestenja.py:71 | `str.replace`. A string without the pattern is returned unchanged, and a non-empty input with a non-empty replacement stays non-empty. Left-to-right matching is stated by `ReplaceAtFirstOccurrence` and the empty pattern by `EmptyTargetSurroundsEachChar` |
| `Text.EmptyTargetSurroundsEachChar` | obavestenja.py:82 | `s.replace("", r)` is `r` for an empty `s`, and otherwise `r + r.join(list(s)) + r`: `r` before each character, in order, and at the end |
| `Text.SplitAtFirstOccurrence` | obavestenja.py:82 | `s.split(t)` cuts at the leftmost occurrence first: with more than one piece, the first piece is followed by `t`, no occurrence of `t` starts inside it, and the other pieces are the split of what follows that `t` |
| `Text.SplitWithoutSeparator` | obavestenja.py:82 | `s.split(t)` has a single piece exactly when `t` does not occur in `s`, and that piece is then `s` |
| `Text.ReplaceAtFirstOccurrence` | obavestenja.py:71-82 | when no occurrence of `t` starts inside `pre`, `(pre + t + post).replace(t, r) == pre + r + post.replace(t, r)`: the leftmost occurrence is replaced and scanning resumes after it, so overlapping occurrences are skipped (`"aaa".replace("aa", r)` is `r + "a"`) |
| `Text.ReplaceBySelf` | obavestenja.py:82 | replacing a pattern by itself gives back the input |
| `Text.ReplaceIsJoinOfSplit` | obavestenja.py:82 | `s.replace(t, r) == r.join(s.split(t))` for a non-empty `t` |
| `Text.SplitPiecesAreFree` | obavestenja.py:82 | no piece of `s.split(t)` contains `t` |
| `Text.SplitJoinRoundTrip` | obavestenja.py:82 | `t.join(s.split(t)) == s` |
| `Text.ReplacePairRemovesIt` | obavestenja.py:71 | replacing a two-character pattern `ab` by one character that is neither `a` nor `b` leaves no `ab` |
| `Text.ReplacePairKeepsAbsent` | obavestenja.py:71 | that replacement cannot create a two-character pattern `xy` absent before, when the replacement character is neither `x` nor `y` |
| `Formatting.FormatTitle` | obavestenja.py:71-72 | the formatted title contains neither "h1" nor "h3". A title with neither is returned unchanged. A non-empty title stays non-empty |
| `Formatting.TitleIdempotent` | obavestenja.py:71 | formatting a title twice equals formatting it once |
| `Formatting.TagString` | obavestenja.py:82 | `str(tag.string)`, the literal "None" for a tag without a single string child; its effect is stated by `StringlessTagSubstitutesNone` |
| `Formatting.Substitute` | obavestenja.py:78-82 | one pass of the tag loop: only a supported tag changes the body, replacing every occurrence of its string by its markup; stated by `SupportedTagReplacesEveryOccurrence`, `StringlessTagSubstitutesNone` and `OnlySupportedTagsMatter` |
| `Formatting.FormattedBody` | obavestenja.py:75-82 | the body after the tag loop, starting from `.text`; `BuildNotice` proves the loop computes it, and `OnlySupportedTagsMatter`, `UnsupportedTagsKeepPlain` and `FormattingInDocumentOrder` state what it depends on and in which order |
| `Formatting.BuildNotice` | obavestenja.py:69-85 | the constructor's loop leaves the body equal to the plain text with each tag's substitution applied in document order, and the title equal to `FormatTitle` of the heading |
| `Formatting.OnlySupportedTagsMatter` | obavestenja.py:76-82 | the body depends only on the tags whose name is among the 12 supported names, in their order |
| `Formatting.UnsupportedTagsKeepPlain` | obavestenja.py:75-82 | with no supported tag, the body is the plain text |
| `Formatting.FormattingInDocumentOrder` | obavestenja.py:76-82 | substitutions compose in document order: tags `a + b` give the result of `a`, then `b` applied to it |
| `Formatting.SupportedTagReplacesEveryOccurrence` | obavestenja.py:82 | a supported tag's step splits the body at every occurrence of the tag's string into pieces free of it, and joins them with the tag's markup |
| `Formatting.StringlessTagSubstitutesNone` | obavestenja.py:82 | a supported tag without a single string child replaces every literal "None" in the body by its markup: the body splits at "None" into pieces free of it, joined by the markup. A body without "None" is unchanged |
| `Fetching.FetchFrom` | obavestenja.py:48-65 | at most 16 attempts. A kept page is the page of the last attempt made, and every attempt before it failed. With no page, all 16 attempts failed |
| `Fetching.Fetch` | obavestenja.py:48-65 | the `for`/`else` loop makes 1 to 16 attempts. It keeps a page exactly when one of the 16 attempts loads, and that page comes from the first attempt that loads. Giving up takes 16 failures |
| `Fetching.FirstLoadedIsKept` | obavestenja.py:48-54 | when attempt `k` is the first to load, its page is kept after exactly `k + 1` attempts |
| `Dispatch.SendMsg` | obavestenja.py:87-105 | one `send_message` with `title + "\n" + body`. The result is the delivered message exactly when the reply delivers one. `BadRequest` ends in `AttributeError` (the fallback reads `.text` on a str). Other errors propagate |
| `Dispatch.EditMsg` | obavestenja.py:116-134 | one `edit_message_text` of the given message id with the same text, with the same outcomes as `SendMsg` |
| `Dispatch.NoBadRequestEscapes` | obavestenja.py:95-104 | neither `send_msg` nor `edit` raises `BadRequest` |
| `Dispatch.SendImg` | obavestenja.py:107-114 | one `send_photo`. A `BadRequest` is swallowed, and only other errors escape |
| `Dispatch.SendImages` | obavestenja.py:190-192 | the image loop ends without fault exactly when every img has a `src` and no photo call meets a non-BadRequest error. It then made one photo call per img in document order. It never makes more calls than there are imgs, and a fault is `KeyError` or a Telegram error |
| `PollLoop.Classify` | obavestenja.py:177-185 | the classifier: NEW exactly when title or body similarity to the last relayed notice is below 0.85, EDIT otherwise; stated by `RelayedChangeUpdatesState` and used by `FirstChangeIsNew` |
| `PollLoop.Updated` | obavestenja.py:198-206 | the overwrite after a relay: the relayed page's stored fingerprint becomes the fresh one, the other page's is kept, the notice becomes the baseline and the last message is recorded |
| `PollLoop.Relay` | obavestenja.py:171-247 | a completed branch relays its own page, stores that page's new fingerprint, keeps the other page's, and leaves a message bound after NEW |
| `PollLoop.Step` | obavestenja.py:154-249 | an idle cycle changes nothing and calls nothing. A relayed change stores the fresh fingerprint of exactly one page, which differed from the stored one, and leaves the other page's alone. The cycle exits exactly when a page fails to load, and then makes no call |
| `PollLoop.ExitExactlyWhenAllAttemptsFail` | obavestenja.py:48-65 | a cycle exits exactly when all 16 attempts for one of the two pages fail, and it then makes no Bot API call |
| `PollLoop.Start` | obavestenja.py:140-152 | the initial state has the empty title and body baseline and no message. Its stored fingerprints are those of the first fetched regions, so a first cycle that sees the same pages is quiet. It fails with `Exit` exactly when a page fails to load, and otherwise only with `IndexError` |
| `PollLoop.IdleExactlyWhenQuiet` | obavestenja.py:171-249 | a cycle is idle if and only if both pages load, both regions are found and both fingerprints equal the stored ones. It then sends nothing and keeps the state |
| `PollLoop.StudentiHasPriority` | obavestenja.py:171-208 | when the studenti fingerprint changed, a completed cycle relays studenti and leaves the stored obavestenja fingerprint untouched |
| `PollLoop.DeferredChangeIsRelayedNext` | obavestenja.py:171-247 | an obavestenja change that lost to a studenti change is relayed in the next cycle if that page still differs: it is deferred, not lost |
| `PollLoop.RelayedChangeUpdatesState` | obavestenja.py:178-247 | after a relayed change, NEW or EDIT alike, the page's fingerprint is stored and the other page's kept. The formatted title and body become the baseline. The kind is NEW exactly when title or body similarity is below 0.85 |
| `PollLoop.NewSendsMessageThenImages` | obavestenja.py:185-192 | NEW makes one `send_message` with the formatted text, then one `send_photo` per img in document order, and stores the sent message |
| `PollLoop.EditEditsStoredMessage` | obavestenja.py:193-194 | EDIT makes exactly one call, an edit of the stored message, sends no image, and stores the edited message |
| `PollLoop.FirstChangeIsNew` | obavestenja.py:151-194 | from the empty baseline, with `FarFromEmpty` and non-empty heading markup, a relayed change is NEW |
| `PollLoop.StepKeepsEditReady` | obavestenja.py:151-235 | a cycle from a state that has a message or an empty baseline never stops on an unbound message, and leaves such a state |
| `PollLoop.RunFrom` | obavestenja.py:154-249 | the `while True` loop over finitely many cycles: it halts, if at all, at one of the given cycles; `NeverEditsUnbound`, `QuietRunKeepsState` and `Watcher.Poll` state its meaning |
| `PollLoop.NeverEditsUnbound` | obavestenja.py:154-249 | over any finite run from such a state, `edit` is never reached with `aktuelna_poruka` unbound |
| `PollLoop.MainNeverEditsUnbound` | obavestenja.py:140-249 | in the run `main` starts, `edit` is never reached with `aktuelna_poruka` unbound |
| `PollLoop.QuietRunKeepsState` | obavestenja.py:154-249 | cycles that all see the stored fingerprints leave the state unchanged |
| `PollLoop.Watcher.Cycle` | obavestenja.py:154-249 | the loop body updating the fields in place agrees with `Step`: same calls, same new state, and fields untouched when the run stops |
| `PollLoop.Watcher.RelayChange` | obavestenja.py:171-247 | one branch of the `if`/`elif`, with its image loop, agrees with `Relay` |
| `PollLoop.Watcher.Poll` | obavestenja.py:154-249 | running the loop over finitely many cycles agrees with `RunFrom`: the final state, or the first cycle that stops and its fault |
| `PollLoop.Launch` | obavestenja.py:140-152 | the start of `main` builds a watcher whose state is `Start`'s, or fails as `Start` does |

## Left out

- HTTP fetching (`urlopen`, `Request`) is foreign I/O. Each attempt is an oracle outcome.
- Exceptions other than `URLError` and `RemoteDisconnected` during a fetch are not attempt outcomes here. In the script they propagate and end the process.
- HTML parsing and CSS selection (BeautifulSoup) are a foreign library. Only the first match of each selector is used, as in the script, and it is given as data. On the studenti page the fingerprinted region and the body are the same element; the model keeps them as separate fields.
- SHA-224 is a foreign hash. Only its being a deterministic function of the region's markup is used.
- `difflib.SequenceMatcher` is library behaviour. Only the [0, 1] bound is used, plus the `FarFromEmpty` hypothesis where stated.
- `time.sleep`, `logging` (including the `old =/= new` fingerprint line), `load_dotenv`, `os.getenv` and the `__main__` guard are timing, logging and configuration. `exit()` is the `Exit` fault.
- The chat id and `parse_mode='html'` of every Bot API call are constants and are not recorded in `ApiCall`.
- The `while True` loop is modelled by `Step` for one cycle and by `RunFrom` / `Watcher.Poll` for finitely many.
- `edit_message_text` returning `True` instead of a message (inline messages only) does not arise for a channel post and is not modelled.
