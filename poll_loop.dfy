/** The body of `main`'s polling loop: fetch both watched pages, compare
    their fingerprints against the stored ones, and relay at most one
    changed announcement per cycle, as a new message or as an edit of the
    last one. */
module PollLoop {
  import opened Wrappers
  import opened Formatting
  import opened Fetching
  import opened Dispatch

  /** The two watched pages, in priority order: the students' timeline
      (URL[0]) and the announcements page (URL[1]). */
  datatype Source = Studenti | Obavestenja

  datatype Kind = New | Edit

  /** What a cycle that completed did. */
  datatype Action = Idle | Relayed(source: Source, kind: Kind)

  /** The loop's variables: the stored fingerprint of each page
      (`studenti_inithash`, `obavestenja_inithash`), the last relayed title
      and body (`prethodni_naslov`, `prethodni_sadrzaj`), and the last
      message (`aktuelna_poruka`, None while still unbound). */
  datatype Observation = Observation(
    studentiHash: string,
    obavestenjaHash: string,
    prevTitle: string,
    prevBody: string,
    current: Option<Message>)

  /** What one cycle sees from the outside world: the outcome of each fetch
      attempt for each page and the replies of the Bot API. */
  datatype CycleInput = CycleInput(
    studentiTries: nat -> Attempt,
    obavestenjaTries: nat -> Attempt,
    api: nat -> Reply)

  /** The cycle completed (with the new state), or the run stopped; either
      way, the API calls it made. */
  datatype Outcome =
    | Continue(state: Observation, action: Action, calls: seq<ApiCall>)
    | Stopped(fault: Fault, calls: seq<ApiCall>)

  /** A `SequenceMatcher(...).ratio()` value. */
  type Ratio = r: real | 0.0 <= r <= 1.0

  /** Below this similarity of title or body, a change is a new announcement. */
  const Threshold: real := 0.85

  /** The fingerprint: SHA-224 of `str(region)`, as hex. Only its being a
      function of the region's markup matters here. */
  type Digest = string -> string

  /** `poklapanje`: the similarity of two strings. */
  type Similarity = (string, string) -> Ratio

  /** `poklapanjeNaslova < 0.85 or poklapanjeSadrzaja < 0.85`: the formatted
      title and body compared with the last relayed ones. */
  function Classify(ratio: Similarity, n: Notice, s: Observation): Kind
  {
    if ratio(n.title, s.prevTitle) < Threshold || ratio(n.body, s.prevBody) < Threshold then New else Edit
  }

  /** The state after relaying notice `n` from `src`: that page's stored
      fingerprint becomes `h`, the notice becomes the baseline, `m` is the
      last message. */
  function Updated(s: Observation, src: Source, h: string, n: Notice, m: Option<Message>): (r: Observation)
    ensures StoredHash(r, src) == h
    ensures StoredHash(r, Other(src)) == StoredHash(s, Other(src))
    ensures r.prevTitle == n.title && r.prevBody == n.body && r.current == m
  {
    match src
    case Studenti => s.(studentiHash := h, prevTitle := n.title, prevBody := n.body, current := m)
    case Obavestenja => s.(obavestenjaHash := h, prevTitle := n.title, prevBody := n.body, current := m)
  }

  /** The notice `TelegramObavestenje(naslov, sadrzaj)` builds. */
  function NoticeOf(heading: string, content: Content): Notice
  {
    Notice(FormatTitle(heading), FormattedBody(content.plain, content.tags))
  }

  /** One branch of the `if`/`elif`: the page `p` of `src` has fingerprint
      `h`, different from the stored one. */
  function Relay(s: Observation, src: Source, p: Page, h: string, api: nat -> Reply, ratio: Similarity): (r: Outcome)
    ensures r.Stopped? ==> r.fault in {IndexError, KeyError, UnboundLocalError, AttributeError, TelegramError}
    ensures r.Continue? ==>
      && r.action.Relayed? && r.action.source == src
      && StoredHash(r.state, src) == h
      && StoredHash(r.state, Other(src)) == StoredHash(s, Other(src))
      && r.state.current.Some? == (s.current.Some? || r.action.kind == New)
  {
    if p.heading.None? || p.content.None? then Stopped(IndexError, [])
    else
      var content := p.content.value;
      var n := NoticeOf(p.heading.value, content);
      if Classify(ratio, n, s) == New then
        var sent := SendMsg(n, api, []);
        match sent.result
        case Err(f) => Stopped(f, sent.calls)
        case Ok(m) =>
          var photos := SendImages(content.images, api, sent.calls);
          if photos.fault.Some? then Stopped(photos.fault.value, photos.calls)
          else Continue(Updated(s, src, h, n, Some(m)), Relayed(src, New), photos.calls)
      else if s.current.None? then Stopped(UnboundLocalError, [])
      else
        var edited := EditMsg(n, s.current.value, api, []);
        match edited.result
        case Ok(m) => Continue(Updated(s, src, h, n, Some(m)), Relayed(src, Edit), edited.calls)
        case Err(f) =>
          // only the obavestenja branch wraps its edit in `except BadRequest: pass`
          if f == BadRequestError && src == Obavestenja then
            Continue(Updated(s, src, h, n, s.current), Relayed(src, Edit), edited.calls)
          else Stopped(f, edited.calls)
  }

  /** The page of `src` this cycle, when its fetch succeeded. */
  function PageOf(c: CycleInput, src: Source): Option<Page>
  {
    match src
    case Studenti => FetchPage(c.studentiTries).page
    case Obavestenja => FetchPage(c.obavestenjaTries).page
  }

  /** One pass of the `while True` body (after the sleep). */
  function Step(s: Observation, c: CycleInput, digest: Digest, ratio: Similarity): (r: Outcome)
    ensures r.Stopped? && r.fault == Exit <==> PageOf(c, Studenti).None? || PageOf(c, Obavestenja).None?
    ensures r.Stopped? && r.fault == Exit ==> r.calls == []
    ensures r.Continue? && r.action == Idle ==> r.state == s && r.calls == []
    ensures r.Continue? && r.action.Relayed? ==>
      && FreshHash(c, r.action.source, digest) == Some(StoredHash(r.state, r.action.source))
      && StoredHash(r.state, r.action.source) != StoredHash(s, r.action.source)
      && StoredHash(r.state, Other(r.action.source)) == StoredHash(s, Other(r.action.source))
  {
    var studenti := PageOf(c, Studenti);
    var obavestenja := PageOf(c, Obavestenja);
    if studenti.None? || obavestenja.None? then Stopped(Exit, [])
    else if studenti.value.region.None? || obavestenja.value.region.None? then Stopped(IndexError, [])
    else
      var sh := digest(studenti.value.region.value);
      var oh := digest(obavestenja.value.region.value);
      if s.studentiHash != sh then Relay(s, Studenti, studenti.value, sh, c.api, ratio)
      else if s.obavestenjaHash != oh then Relay(s, Obavestenja, obavestenja.value, oh, c.api, ratio)
      else Continue(s, Idle, [])
  }

  /** The fresh fingerprint of `src` this cycle, when its page and region are there. */
  function FreshHash(c: CycleInput, src: Source, digest: Digest): Option<string>
  {
    match PageOf(c, src)
    case None => None
    case Some(p) => if p.region.None? then None else Some(digest(p.region.value))
  }

  /** Both pages loaded, both regions found, both fingerprints as stored. */
  predicate Quiet(s: Observation, c: CycleInput, digest: Digest)
  {
    FreshHash(c, Studenti, digest) == Some(s.studentiHash)
    && FreshHash(c, Obavestenja, digest) == Some(s.obavestenjaHash)
  }

  /** The stored fingerprint of `src`. */
  function StoredHash(s: Observation, src: Source): string
  {
    match src
    case Studenti => s.studentiHash
    case Obavestenja => s.obavestenjaHash
  }

  function Other(src: Source): Source
  {
    match src
    case Studenti => Obavestenja
    case Obavestenja => Studenti
  }

  // ---------------------------------------------------------------------
  // Properties of one cycle
  // ---------------------------------------------------------------------

  /** A cycle is idle exactly when neither fingerprint changed; then it sends
      nothing and leaves the state as it was. */
  lemma IdleExactlyWhenQuiet(s: Observation, c: CycleInput, digest: Digest, ratio: Similarity)
    ensures Step(s, c, digest, ratio).Continue? && Step(s, c, digest, ratio).action == Idle
      <==> Quiet(s, c, digest)
    ensures Quiet(s, c, digest) ==> Step(s, c, digest, ratio) == Continue(s, Idle, [])
  {
  }

  /** A changed studenti fingerprint takes priority: that page is the one
      relayed, and the stored obavestenja fingerprint is left alone. */
  lemma StudentiHasPriority(s: Observation, c: CycleInput, digest: Digest, ratio: Similarity, sh: string)
    requires FreshHash(c, Studenti, digest) == Some(sh) && sh != s.studentiHash
    ensures var r := Step(s, c, digest, ratio);
      r.Continue? ==>
        && r.action.Relayed? && r.action.source == Studenti
        && r.state.studentiHash == sh
        && r.state.obavestenjaHash == s.obavestenjaHash
  {
  }

  /** An obavestenja change that loses to a studenti change is not lost: the
      next cycle, seeing the same studenti page and an obavestenja page still
      different from the stored one, relays obavestenja. */
  lemma DeferredChangeIsRelayedNext(s: Observation, c1: CycleInput, c2: CycleInput, digest: Digest, ratio: Similarity, sh: string, oh: string)
    requires FreshHash(c1, Studenti, digest) == Some(sh) && sh != s.studentiHash
    requires FreshHash(c2, Studenti, digest) == Some(sh)
    requires FreshHash(c2, Obavestenja, digest) == Some(oh) && oh != s.obavestenjaHash
    requires Step(s, c1, digest, ratio).Continue?
    ensures var r := Step(Step(s, c1, digest, ratio).state, c2, digest, ratio);
      r.Continue? ==>
        && r.action.Relayed? && r.action.source == Obavestenja
        && r.state.obavestenjaHash == oh
        && r.state.studentiHash == sh
  {
    StudentiHasPriority(s, c1, digest, ratio, sh);
  }

  /** What a relayed change does, NEW or EDIT alike: the page's fingerprint
      is stored, the other page's is not touched, and the formatted title
      and body become the baseline for the next comparison. The kind is NEW
      exactly when either similarity to the old baseline is below 0.85. */
  lemma RelayedChangeUpdatesState(s: Observation, c: CycleInput, digest: Digest, ratio: Similarity, src: Source, p: Page)
    requires PageOf(c, src) == Some(p)
    ensures var r := Step(s, c, digest, ratio);
      r.Continue? && r.action.Relayed? && r.action.source == src ==>
        && p.region.Some? && p.heading.Some? && p.content.Some?
        && var n := NoticeOf(p.heading.value, p.content.value);
        && StoredHash(r.state, src) == digest(p.region.value) != StoredHash(s, src)
        && StoredHash(r.state, Other(src)) == StoredHash(s, Other(src))
        && r.state.prevTitle == n.title
        && r.state.prevBody == n.body
        && (r.action.kind == New <==>
              ratio(n.title, s.prevTitle) < Threshold || ratio(n.body, s.prevBody) < Threshold)
  {
  }

  /** NEW sends one message with the formatted text, then one photo per img
      in document order, and remembers the new message. */
  lemma NewSendsMessageThenImages(s: Observation, c: CycleInput, digest: Digest, ratio: Similarity, src: Source, p: Page)
    requires PageOf(c, src) == Some(p)
    ensures var r := Step(s, c, digest, ratio);
      r.Continue? && r.action == Relayed(src, New) ==>
        && p.heading.Some? && p.content.Some?
        && var images := p.content.value.images;
        && (forall i :: 0 <= i < |images| ==> images[i].Some?)
        && r.calls == [SendMessage(Caption(NoticeOf(p.heading.value, p.content.value)))] + Photos(Sources(images))
        && r.state.current == Some(c.api(0).message)
  {
  }

  /** EDIT makes one call, an edit of the stored message, and sends no image. */
  lemma EditEditsStoredMessage(s: Observation, c: CycleInput, digest: Digest, ratio: Similarity, src: Source, p: Page)
    requires PageOf(c, src) == Some(p)
    ensures var r := Step(s, c, digest, ratio);
      r.Continue? && r.action == Relayed(src, Edit) ==>
        && p.heading.Some? && p.content.Some?
        && s.current.Some?
        && r.calls == [EditMessageText(s.current.value.id, Caption(NoticeOf(p.heading.value, p.content.value)))]
        && r.state.current == Some(c.api(0).message)
  {
    var r := Step(s, c, digest, ratio);
    if r.Continue? && r.action == Relayed(src, Edit) {
      NoBadRequestEscapes(NoticeOf(p.heading.value, p.content.value), s.current.value, c.api, []);
    }
  }

  // ---------------------------------------------------------------------
  // The first change is NEW, so `aktuelna_poruka` is bound before any edit
  // ---------------------------------------------------------------------

  /** SequenceMatcher's ratio of a non-empty string against "" is 0: below
      the threshold. */
  ghost predicate FarFromEmpty(ratio: Similarity)
  {
    forall a: string :: a != [] ==> ratio(a, []) < Threshold
  }

  /** The selected heading of every page that loads is non-empty markup. */
  predicate HeadingsNonEmpty(c: CycleInput)
  {
    forall src: Source :: PageOf(c, src).Some? && PageOf(c, src).value.heading.Some? ==>
      PageOf(c, src).value.heading.value != []
  }

  /** Either a message exists to edit, or the baseline is still the initial
      empty title and body. */
  predicate EditReady(s: Observation)
  {
    s.current.Some? || (s.prevTitle == [] && s.prevBody == [])
  }

  /** From an empty baseline, a relayed change is NEW. */
  lemma FirstChangeIsNew(s: Observation, c: CycleInput, digest: Digest, ratio: Similarity)
    requires s.prevTitle == [] && s.prevBody == []
    requires FarFromEmpty(ratio) && HeadingsNonEmpty(c)
    ensures var r := Step(s, c, digest, ratio);
      r.Continue? && r.action.Relayed? ==> r.action.kind == New
  {
    var r := Step(s, c, digest, ratio);
    if r.Continue? && r.action.Relayed? {
      var src := r.action.source;
      var p := PageOf(c, src).value;
      var n := NoticeOf(p.heading.value, p.content.value);
      assert n.title != [];
      assert ratio(n.title, []) < Threshold;
    }
  }

  /** A cycle from a state ready for edits never fails on an unbound
      message, and leaves a state ready for edits. */
  lemma StepKeepsEditReady(s: Observation, c: CycleInput, digest: Digest, ratio: Similarity)
    requires EditReady(s) && FarFromEmpty(ratio) && HeadingsNonEmpty(c)
    ensures var r := Step(s, c, digest, ratio);
      && !(r.Stopped? && r.fault == UnboundLocalError)
      && (r.Continue? ==> EditReady(r.state))
  {
    if s.current.None? {
      FirstChangeIsNew(s, c, digest, ratio);
    }
  }

  // ---------------------------------------------------------------------
  // Runs: finite traces of cycles
  // ---------------------------------------------------------------------

  /** A run over finitely many cycles: the last state, or the cycle at which
      the process stopped and why. */
  datatype RunOutcome = Running(state: Observation) | Halted(fault: Fault, cycle: nat)

  /** The loop from cycle `i` on. */
  function RunFrom(s: Observation, cycles: seq<CycleInput>, i: nat, digest: Digest, ratio: Similarity): (r: RunOutcome)
    ensures r.Halted? ==> i <= r.cycle < |cycles|
    decreases |cycles| - i
  {
    if i >= |cycles| then Running(s)
    else match Step(s, cycles[i], digest, ratio)
      case Stopped(f, _) => Halted(f, i)
      case Continue(t, _, _) => RunFrom(t, cycles, i + 1, digest, ratio)
  }

  /** The start of `main`: both pages fetched and fingerprinted, the
      baseline title and body empty, no message yet. */
  function Start(studentiTries: nat -> Attempt, obavestenjaTries: nat -> Attempt, digest: Digest): (r: Result<Observation, Fault>)
    ensures r.Ok? ==> r.value.prevTitle == [] && r.value.prevBody == [] && r.value.current.None?
    ensures r.Ok? ==> forall api :: Quiet(r.value, CycleInput(studentiTries, obavestenjaTries, api), digest)
    ensures r == Err(Exit) <==>
      FetchPage(studentiTries).page.None? || FetchPage(obavestenjaTries).page.None?
    ensures r.Err? ==> r.error in {Exit, IndexError}
  {
    var studenti := FetchPage(studentiTries).page;
    var obavestenja := FetchPage(obavestenjaTries).page;
    if studenti.None? || obavestenja.None? then Err(Exit)
    else if studenti.value.region.None? || obavestenja.value.region.None? then Err(IndexError)
    else Ok(Observation(digest(studenti.value.region.value), digest(obavestenja.value.region.value), [], [], None))
  }

  /** Over any run from a state ready for edits, `edit` is never reached
      with `aktuelna_poruka` unbound, whatever the pages and replies. */
  lemma {:induction false} NeverEditsUnbound(s: Observation, cycles: seq<CycleInput>, i: nat, digest: Digest, ratio: Similarity)
    requires EditReady(s) && FarFromEmpty(ratio)
    requires forall k :: 0 <= k < |cycles| ==> HeadingsNonEmpty(cycles[k])
    ensures var r := RunFrom(s, cycles, i, digest, ratio);
      && !(r.Halted? && r.fault == UnboundLocalError)
      && (r.Running? ==> EditReady(r.state))
    decreases |cycles| - i
  {
    if i < |cycles| {
      StepKeepsEditReady(s, cycles[i], digest, ratio);
      var r := Step(s, cycles[i], digest, ratio);
      if r.Continue? {
        NeverEditsUnbound(r.state, cycles, i + 1, digest, ratio);
      }
    }
  }

  /** The run `main` starts: `edit` is never reached with
      `aktuelna_poruka` unbound. */
  lemma MainNeverEditsUnbound(studentiTries: nat -> Attempt, obavestenjaTries: nat -> Attempt, cycles: seq<CycleInput>, digest: Digest, ratio: Similarity)
    requires Start(studentiTries, obavestenjaTries, digest).Ok? && FarFromEmpty(ratio)
    requires forall k :: 0 <= k < |cycles| ==> HeadingsNonEmpty(cycles[k])
    ensures var r := RunFrom(Start(studentiTries, obavestenjaTries, digest).value, cycles, 0, digest, ratio);
      !(r.Halted? && r.fault == UnboundLocalError)
  {
    NeverEditsUnbound(Start(studentiTries, obavestenjaTries, digest).value, cycles, 0, digest, ratio);
  }

  /** A cycle exits exactly when all sixteen attempts to load one of the
      pages failed; it then has made no Bot API call. */
  lemma ExitExactlyWhenAllAttemptsFail(s: Observation, c: CycleInput, digest: Digest, ratio: Similarity)
    ensures var r := Step(s, c, digest, ratio);
      && (r.Stopped? && r.fault == Exit <==>
            (forall i :: 0 <= i < MaxAttempts ==> c.studentiTries(i) == Refused)
            || (forall i :: 0 <= i < MaxAttempts ==> c.obavestenjaTries(i) == Refused))
      && (r.Stopped? && r.fault == Exit ==> r.calls == [])
  {
    var fs, fo := FetchPage(c.studentiTries), FetchPage(c.obavestenjaTries);
    if fs.page.Some? {
      assert !c.studentiTries(fs.attempts - 1).Refused?;
    }
    if fo.page.Some? {
      assert !c.obavestenjaTries(fo.attempts - 1).Refused?;
    }
  }

  /** Cycles that all see the stored fingerprints change nothing. */
  lemma {:induction false} QuietRunKeepsState(s: Observation, cycles: seq<CycleInput>, i: nat, digest: Digest, ratio: Similarity)
    requires forall k :: i <= k < |cycles| ==> Quiet(s, cycles[k], digest)
    ensures RunFrom(s, cycles, i, digest, ratio) == Running(s)
    decreases |cycles| - i
  {
    if i < |cycles| {
      IdleExactlyWhenQuiet(s, cycles[i], digest, ratio);
      QuietRunKeepsState(s, cycles, i + 1, digest, ratio);
    }
  }

  // ---------------------------------------------------------------------
  // `main` itself: the loop variables as fields updated in place
  // ---------------------------------------------------------------------

  /** The local variables of `main` that survive from one cycle to the next. */
  class Watcher {
    var studentiHash: string
    var obavestenjaHash: string
    var prevTitle: string
    var prevBody: string
    var current: Option<Message>

    function State(): Observation
      reads this
    {
      Observation(studentiHash, obavestenjaHash, prevTitle, prevBody, current)
    }

    constructor (start: Observation)
      ensures State() == start
    {
      studentiHash, obavestenjaHash := start.studentiHash, start.obavestenjaHash;
      prevTitle, prevBody, current := start.prevTitle, start.prevBody, start.current;
    }

    /** One pass of the loop body; on a stop the fields are left as they
        were (the process is gone). */
    method Cycle(c: CycleInput, digest: Digest, ratio: Similarity) returns (fault: Option<Fault>, calls: seq<ApiCall>)
      modifies this
      ensures var r := Step(old(State()), c, digest, ratio);
        && calls == r.calls
        && (r.Continue? ==> fault.None? && State() == r.state)
        && (r.Stopped? ==> fault == Some(r.fault) && State() == old(State()))
    {
      var studenti := Fetch(c.studentiTries);
      if studenti.page.None? {
        return Some(Exit), [];
      }
      var obavestenja := Fetch(c.obavestenjaTries);
      if obavestenja.page.None? {
        return Some(Exit), [];
      }
      var sp, op := studenti.page.value, obavestenja.page.value;
      if sp.region.None? || op.region.None? {
        return Some(IndexError), [];
      }
      var sh := digest(sp.region.value);
      var oh := digest(op.region.value);
      if studentiHash != sh {
        fault, calls := RelayChange(Studenti, sp, sh, c.api, ratio);
      } else if obavestenjaHash != oh {
        fault, calls := RelayChange(Obavestenja, op, oh, c.api, ratio);
      } else {
        fault, calls := None, [];
      }
    }

    /** The body of one branch of the `if`/`elif`: build the notice,
        classify it, send or edit, then store the new baseline. */
    method RelayChange(src: Source, p: Page, h: string, api: nat -> Reply, ratio: Similarity)
      returns (fault: Option<Fault>, calls: seq<ApiCall>)
      modifies this
      ensures var r := Relay(old(State()), src, p, h, api, ratio);
        && calls == r.calls
        && (r.Continue? ==> fault.None? && State() == r.state)
        && (r.Stopped? ==> fault == Some(r.fault) && State() == old(State()))
    {
      if p.heading.None? || p.content.None? {
        return Some(IndexError), [];
      }
      var content := p.content.value;
      var notice := BuildNotice(p.heading.value, content);
      var message: Option<Message>;
      if Classify(ratio, notice, State()) == New {
        var sent := SendMsg(notice, api, []);
        if sent.result.Err? {
          return Some(sent.result.error), sent.calls;
        }
        calls := sent.calls;
        var images := content.images;
        var i := 0;
        while i < |images|
          invariant 0 <= i <= |images|
          invariant SendImages(images[i..], api, calls) == SendImages(images, api, sent.calls)
        {
          if images[i].None? {
            return Some(KeyError), calls;
          }
          var photo := SendImg(images[i].value, api, calls);
          calls := photo.calls;
          if photo.fault.Some? {
            return photo.fault, calls;
          }
          assert images[i..][1..] == images[i + 1..];
          i := i + 1;
        }
        message := Some(sent.result.value);
      } else {
        if current.None? {
          return Some(UnboundLocalError), [];
        }
        var edited := EditMsg(notice, current.value, api, []);
        calls := edited.calls;
        match edited.result
        case Ok(m) =>
          message := Some(m);
        case Err(f) =>
          if f == BadRequestError && src == Obavestenja {
            message := current;
          } else {
            return Some(f), calls;
          }
      }
      if src == Studenti {
        studentiHash := h;
      } else {
        obavestenjaHash := h;
      }
      prevTitle, prevBody, current := notice.title, notice.body, message;
      fault := None;
    }

    /** `while True` over finitely many cycles: stops at the first cycle
        that stops the process, and reports which one it was. */
    method Poll(cycles: seq<CycleInput>, digest: Digest, ratio: Similarity) returns (fault: Option<Fault>, at: nat)
      modifies this
      ensures var r := RunFrom(old(State()), cycles, 0, digest, ratio);
        && (r.Running? ==> fault.None? && State() == r.state)
        && (r.Halted? ==> fault == Some(r.fault) && at == r.cycle)
    {
      var i := 0;
      while i < |cycles|
        invariant 0 <= i <= |cycles|
        invariant RunFrom(State(), cycles, i, digest, ratio) == RunFrom(old(State()), cycles, 0, digest, ratio)
      {
        var stop, _ := Cycle(cycles[i], digest, ratio);
        if stop.Some? {
          return stop, i;
        }
        i := i + 1;
      }
      return None, 0;
    }
  }

  /** The start of `main`: fetch both pages, store their fingerprints. */
  method Launch(studentiTries: nat -> Attempt, obavestenjaTries: nat -> Attempt, digest: Digest)
    returns (r: Result<Watcher, Fault>)
    ensures var start := Start(studentiTries, obavestenjaTries, digest);
      && (r.Ok? <==> start.Ok?)
      && (r.Ok? ==> fresh(r.value) && r.value.State() == start.value)
      && (r.Err? ==> r.error == start.error)
  {
    var studenti := Fetch(studentiTries);
    if studenti.page.None? {
      return Err(Exit);
    }
    var obavestenja := Fetch(obavestenjaTries);
    if obavestenja.page.None? {
      return Err(Exit);
    }
    var sp, op := studenti.page.value, obavestenja.page.value;
    if sp.region.None? || op.region.None? {
      return Err(IndexError);
    }
    var w := new Watcher(Observation(digest(sp.region.value), digest(op.region.value), [], [], None));
    return Ok(w);
  }
}
