// The editor's font and choices: a font file read on a thread for whoever chose it, and changes saved
// a moment later. See src/host/editor_theme_host.rs and src/model/editor_theme/typography.rs.
module EditorFont {
  import opened Text

  // MARK: Choices

  /** A theme may name a font of its own. */
  datatype Theme = Theme(id: nat, font: Option<string>)

  datatype Prefs = Prefs(selected: Option<nat>, font: Option<string>)

  datatype Choices = Choices(prefs: Prefs, themes: seq<Theme>)

  const BUNDLED_FONT := "JetBrains Mono"
  const SYSTEM_FONT := "System Mono"

  function LowerChar(c: char): char {
    if 'A' <= c <= 'Z' then c - 'A' + 'a' else c
  }

  function Lower(s: string): string {
    seq(|s|, i requires 0 <= i < |s| => LowerChar(s[i]))
  }

  /** Names of families are the same whatever the case of their ASCII letters. */
  predicate Same(a: string, b: string) {
    Lower(a) == Lower(b)
  }

  function FindTheme(themes: seq<Theme>, id: nat): Option<Theme> {
    if themes == [] then None else if themes[0].id == id then Some(themes[0]) else FindTheme(themes[1..], id)
  }

  /** The family the editor should use, if not the system's: the selected theme's own goes first. */
  function Wanted(choices: Choices): Option<string> {
    var theme := if choices.prefs.selected.Some? then FindTheme(choices.themes, choices.prefs.selected.value) else None;
    if theme.Some? && theme.value.font.Some? then
      if theme.value.font == Some(SYSTEM_FONT) then None else theme.value.font
    else choices.prefs.font
  }

  predicate Wants(choices: Choices, family: string) {
    Wanted(choices).Some? && Same(Wanted(choices).value, family)
  }

  // MARK: The font

  datatype Status = System | Loading(name: string) | Using(name: string) | Missing(name: string) | Failed(name: string)

  datatype Source = SystemSource | BundledSource | FileSource(family: string)

  datatype Reply = Reply(family: string, ok: bool)

  /** `inFlight` are the files being read on threads, which end in `replies`. */
  datatype State = State(
    choices: Choices, hasContext: bool, catalog: Option<seq<string>>, font: Status, source: Source,
    installed: Option<string>,
    applied: bool, pending: Option<string>, inFlight: seq<string>, replies: seq<Reply>)

  predicate InCatalog(catalog: seq<string>, family: string) {
    exists f <- catalog :: Same(f, family)
  }

  function WithFont(s: State, family: Option<string>, source: Source): State {
    if s.applied && s.installed == family then s else s.(source := source, installed := family, applied := s.hasContext)
  }

  /** Whether the status already says what became of the family. */
  predicate Settled(status: Status, family: string) {
    (status.Using? || status.Missing? || status.Failed?) && Same(status.name, family)
  }

  predicate Reading(s: State, family: string) {
    s.pending.Some? && Same(s.pending.value, family)
  }

  /** Makes the font follow the choices; `spawns` is whether a thread can be started. */
  function Synced(s: State, spawns: bool): State {
    if Wanted(s.choices).None? then WithFont(s, None, SystemSource).(pending := None, font := System)
    else
      var family := Wanted(s.choices).value;
      if Same(family, BUNDLED_FONT)
        then WithFont(s, Some(BUNDLED_FONT), BundledSource).(pending := None, font := Using(BUNDLED_FONT))
      else if Settled(s.font, family) || Reading(s, family) then s
      else if s.catalog.None? then s.(font := Loading(family))
      else if !InCatalog(s.catalog.value, family)
        then WithFont(s, Some(BUNDLED_FONT), BundledSource).(font := Missing(family))
      else if spawns then s.(font := Loading(family), pending := Some(family), inFlight := s.inFlight + [family])
      else s.(pending := None, font := Failed(family))
  }

  /** One reply: only for the family being read, and only installed if that is still the one wanted. */
  function Taken(s: State, reply: Reply, spawns: bool): State {
    if !Reading(s, reply.family) then s
    else
      var done := s.(pending := None);
      if !Wants(s.choices, reply.family) then Synced(done, spawns)
      else if reply.ok then WithFont(done.(applied := false), Some(reply.family),
        FileSource(reply.family)).(font := Using(reply.family))
      else WithFont(done, Some(BUNDLED_FONT), BundledSource).(font := Failed(reply.family))
  }

  function TakenAll(s: State, replies: seq<Reply>, spawns: bool): State {
    if replies == [] then s
    else Taken(TakenAll(s, replies[..|replies| - 1], spawns), replies[|replies| - 1], spawns)
  }

  /** A saved font may have been waiting for the list of fonts. */
  predicate Waits(s: State) {
    s.font.Loading? && s.pending.None? && s.catalog.Some?
  }

  function Polled(s: State, spawns: bool): State {
    var taken := TakenAll(s.(replies := []), s.replies, spawns);
    if Waits(taken) then Synced(taken, spawns) else taken
  }

  // MARK: Saving

  /** What is unsaved, since when a save is due, and whether the stored themes may be written over. */
  datatype Unsaved = Unsaved(themes: bool, prefs: bool, changedAt: Option<int>, writable: bool)

  const SAVE_DELAY_MS := 400

  class Inner {
    var choices: Choices
    var hasContext: bool
    var catalog: Option<seq<string>>
    var font: Status
    var source: Source
    var installed: Option<string>
    var applied: bool
    var pending: Option<string>
    var inFlight: seq<string>
    var replies: seq<Reply>
    var themesDirty: bool
    var prefsDirty: bool
    var changedAt: Option<int>
    var themesWritable: bool

    ghost function Font(): State
      reads this
    {
      State(choices, hasContext, catalog, font, source, installed, applied, pending, inFlight, replies)
    }

    ghost function Saving(): Unsaved
      reads this
    {
      Unsaved(themesDirty, prefsDirty, changedAt, themesWritable)
    }

    constructor (choices: Choices, catalog: Option<seq<string>>, writable: bool, spawns: bool)
      ensures Font() == Synced(Initial(choices, catalog), spawns) && Saving() == Unsaved(false, false, None, writable)
    {
      this.choices, hasContext, this.catalog := choices, false, catalog;
      font, source, installed, applied := System, BundledSource, Some(BUNDLED_FONT), false;
      pending, inFlight, replies := None, [], [];
      themesDirty, prefsDirty, changedAt, themesWritable := false, false, None, writable;
      new;
      SyncFont(spawns);
    }

    method UseFont(family: Option<string>, source: Source)
      modifies this`source, this`installed, this`applied
      ensures Font() == WithFont(old(Font()), family, source)
    {
      if applied && installed == family {
        return;
      }
      this.source, installed, applied := source, family, false;
      if hasContext {
        applied := true;
      }
    }

    method SyncFont(spawns: bool)
      modifies this`font, this`source, this`installed, this`applied, this`pending, this`inFlight
      ensures Font() == Synced(old(Font()), spawns)
    {
      var wanted := Wanted(choices);
      if wanted.None? {
        UseFont(None, SystemSource);
        pending, font := None, System;
        return;
      }
      var family := wanted.value;
      if Same(family, BUNDLED_FONT) {
        UseFont(Some(BUNDLED_FONT), BundledSource);
        pending, font := None, Using(BUNDLED_FONT);
        return;
      }
      if Settled(font, family) || (pending.Some? && Same(pending.value, family)) {
        return;
      }
      if catalog.None? {
        font := Loading(family);
        return;
      }
      if !InCatalog(catalog.value, family) {
        UseFont(Some(BUNDLED_FONT), BundledSource);
        font := Missing(family);
        return;
      }
      font, pending := Loading(family), Some(family);
      if spawns {
        inFlight := inFlight + [family];
      } else {
        pending, font := None, Failed(family);
      }
    }

    method TakeReply(reply: Reply, spawns: bool)
      modifies this`font, this`source, this`installed, this`applied, this`pending, this`inFlight
      ensures Font() == Taken(old(Font()), reply, spawns)
    {
      hide Same, Wanted, Synced;
      if pending.None? || !Same(pending.value, reply.family) {
        return;
      }
      pending := None;
      if Wanted(choices).None? || !Same(Wanted(choices).value, reply.family) {
        SyncFont(spawns);
      } else if reply.ok {
        applied := false;
        UseFont(Some(reply.family), FileSource(reply.family));
        font := Using(reply.family);
      } else {
        UseFont(Some(BUNDLED_FONT), BundledSource);
        font := Failed(reply.family);
      }
    }

    /** Takes the fonts that have been read since the last look. */
    method PollFonts(spawns: bool)
      modifies this`font, this`source, this`installed, this`applied, this`pending, this`inFlight, this`replies
      ensures Font() == Polled(old(Font()), spawns)
    {
      hide Synced, Taken;
      var queue := replies;
      replies := [];
      ghost var start := Font();
      for i := 0 to |queue|
        invariant Font() == TakenAll(start, queue[..i], spawns)
      {
        assert queue[..i + 1][..i] == queue[..i] && queue[..i + 1][i] == queue[i];
        TakeReply(queue[i], spawns);
      }
      assert queue[..|queue|] == queue;
      if font.Loading? && pending.None? && catalog.Some? {
        SyncFont(spawns);
      }
    }

    /** A change of themes or preferences takes effect at once and is saved later. */
    method Change(choices: Choices, prefs: bool, themes: bool, nowMs: int, spawns: bool)
      modifies this
      ensures Font() == Synced(old(Font()).(choices := choices), spawns)
      ensures Saving() == Unsaved(old(themesDirty) || themes, old(prefsDirty) || prefs, Some(nowMs),
        old(themesWritable))
    {
      this.choices := choices;
      prefsDirty, themesDirty := prefsDirty || prefs, themesDirty || themes;
      changedAt := Some(nowMs);
      SyncFont(spawns);
    }

    method Flush(store: Stored, themesOk: bool, prefsOk: bool) returns (written: Stored)
      modifies this`themesDirty, this`prefsDirty, this`changedAt
      ensures Saving() == Flushed(old(Saving()), themesOk, prefsOk)
      ensures written == Written(store, choices, old(Saving()), themesOk, prefsOk)
    {
      written := store;
      if themesDirty && themesWritable {
        if themesOk {
          written, themesDirty := written.(themes := choices.themes), false;
        }
      }
      if prefsDirty {
        if prefsOk {
          written, prefsDirty := written.(prefs := choices.prefs), false;
        }
      }
      if !themesDirty && !prefsDirty {
        changedAt := None;
      }
    }

    /** Once a frame: fonts that have been read, and what changed a moment ago. */
    method Tick(store: Stored, nowMs: int, themesOk: bool, prefsOk: bool, spawns: bool) returns (written: Stored)
      modifies this
      ensures Font() == Polled(old(Font()), spawns)
      ensures Saving() == if Due(old(Saving()), nowMs) then Flushed(old(Saving()), themesOk, prefsOk) else old(Saving())
      ensures written == if Due(old(Saving()), nowMs)
        then Written(store, old(choices), old(Saving()), themesOk, prefsOk) else store
    {
      hide Polled;
      PollFonts(spawns);
      written := store;
      if changedAt.Some? && nowMs - changedAt.value >= SAVE_DELAY_MS {
        written := Flush(store, themesOk, prefsOk);
      }
    }

    /** Reads what sync brought, unless something here is not saved yet. */
    method Reload(store: Stored, spawns: bool)
      modifies this
      ensures Font() == if old(themesDirty) || old(prefsDirty) then old(Font())
                        else Synced(old(Font()).(choices := Choices(store.prefs, store.themes)), spawns)
      ensures Saving() == if old(themesDirty) || old(prefsDirty) then old(Saving())
        else old(Saving()).(writable := store.readable)
    {
      if themesDirty || prefsDirty {
        return;
      }
      choices, themesWritable := Choices(store.prefs, store.themes), store.readable;
      SyncFont(spawns);
    }
  }

  /** What the store holds: the choices, and whether every theme could be read. */
  datatype Stored = Stored(prefs: Prefs, themes: seq<Theme>, readable: bool)

  function Initial(choices: Choices, catalog: Option<seq<string>>): State {
    State(choices, false, catalog, System, BundledSource, Some(BUNDLED_FONT), false, None, [], [])
  }

  predicate Due(u: Unsaved, nowMs: int) {
    u.changedAt.Some? && nowMs - u.changedAt.value >= SAVE_DELAY_MS
  }

  function Flushed(u: Unsaved, themesOk: bool, prefsOk: bool): Unsaved {
    var themes, prefs := u.themes && !(u.writable && themesOk), u.prefs && !prefsOk;
    u.(themes := themes, prefs := prefs, changedAt := if themes || prefs then u.changedAt else None)
  }

  function Written(store: Stored, choices: Choices, u: Unsaved, themesOk: bool, prefsOk: bool): Stored {
    store.(themes := if u.themes && u.writable && themesOk then choices.themes else store.themes,
           prefs := if u.prefs && prefsOk then choices.prefs else store.prefs)
  }

  // MARK: Runs of the font

  datatype Step =
    | Choose(choices: Choices, spawns: bool)
    | Attach(spawns: bool)
    | Scan(catalog: seq<string>)
    | Finish(i: nat, ok: bool)
    | Poll(spawns: bool)

  predicate Enabled(s: State, step: Step) {
    match step
    case Scan(_) => s.catalog.None?
    case Finish(i, _) => i < |s.inFlight|
    case _ => true
  }

  function Next(s: State, step: Step): State
    requires Enabled(s, step)
  {
    match step
    case Choose(choices, spawns) => Synced(s.(choices := choices), spawns)
    case Attach(spawns) => Synced(s.(hasContext := true, applied := true), spawns)
    case Scan(catalog) => s.(catalog := Some(catalog))
    case Finish(i, ok) => s.(inFlight := s.inFlight[..i] + s.inFlight[i + 1..],
      replies := s.replies + [Reply(s.inFlight[i], ok)])
    case Poll(spawns) => Polled(s, spawns)
  }

  /** The status speaks of the family that is wanted. */
  predicate IsAboutWanted(s: State) {
    if s.font.System? then Wanted(s.choices).None? else Wants(s.choices, s.font.name)
  }

  /** A read of the family is under way or has been answered. */
  predicate Outstanding(s: State, family: string) {
    (exists f <- s.inFlight :: Same(f, family)) || (exists r <- s.replies :: Same(r.family, family))
  }

  predicate ReadingWanted(s: State) {
    s.pending.Some? && Wants(s.choices, s.pending.value)
  }

  /** What holds whatever the choices are. */
  predicate Steady(s: State) {
    && (s.font.Using? ==> s.installed == Some(s.font.name))
    && (s.font.Missing? ==> s.installed == Some(BUNDLED_FONT))
    && (s.source.FileSource? ==> s.installed == Some(s.source.family))
    && (s.pending.Some? ==> !s.font.Using? && !s.font.System? && s.catalog.Some? && Outstanding(s, s.pending.value))
  }

  /** The font that is said to be used is installed and wanted, and otherwise the wanted one is named or being read. */
  predicate Sound(s: State) {
    && Steady(s)
    && (s.font.Using? ==> Wants(s.choices, s.font.name))
    && (s.font.System? ==> s.installed == None && Wanted(s.choices).None?)
    && (ReadingWanted(s) || IsAboutWanted(s))
  }

  lemma SyncIsSound(s: State, spawns: bool)
    requires Steady(s)
    ensures Sound(Synced(s, spawns))
  {
    hide Wanted, Lower, InCatalog;
    if Wanted(s.choices).Some? {
      var family := Wanted(s.choices).value;
      var after := Synced(s, spawns);
      if |after.inFlight| > |s.inFlight| {
        assert after.inFlight[|s.inFlight|] == family;
        assert family in after.inFlight && Same(family, family);
      }
    }
  }

  /** A reply that is for another read than the pending one leaves that one outstanding. */
  lemma OthersStayOutstanding(s: State, reply: Reply, rest: seq<Reply>)
    requires Sound(s.(replies := [reply] + rest)) && !Reading(s, reply.family)
    ensures Sound(s.(replies := rest))
  {
    hide Wanted, Lower;
    if s.pending.Some? {
      assert Outstanding(s.(replies := [reply] + rest), s.pending.value);
      if r: Reply :| r in [reply] + rest && Same(r.family, s.pending.value) {
        assert r in rest;
      }
    }
  }

  lemma SyncIgnoresReplies(s: State, rest: seq<Reply>, spawns: bool)
    ensures Synced(s.(replies := rest), spawns) == Synced(s, spawns).(replies := rest)
  {
    hide Wanted, Same, InCatalog, Settled, Reading, WithFont;
    if Wanted(s.choices).None? {
      FontIgnoresReplies(s, rest, None, SystemSource);
    } else {
      var family := Wanted(s.choices).value;
      ReadingIgnoresReplies(s, rest, family);
      if Same(family, BUNDLED_FONT) {
        FontIgnoresReplies(s, rest, Some(BUNDLED_FONT), BundledSource);
      } else if s.catalog.Some? && !InCatalog(s.catalog.value, family) {
        FontIgnoresReplies(s, rest, Some(BUNDLED_FONT), BundledSource);
      }
    }
  }

  lemma FontIgnoresReplies(s: State, rest: seq<Reply>, family: Option<string>, source: Source)
    ensures WithFont(s.(replies := rest), family, source) == WithFont(s, family, source).(replies := rest)
  {
  }

  lemma ReadingIgnoresReplies(s: State, rest: seq<Reply>, family: string)
    ensures Reading(s.(replies := rest), family) == Reading(s, family)
  {
    hide Same;
  }

  lemma UnwantedReplySyncs(s: State, reply: Reply, rest: seq<Reply>, spawns: bool)
    requires Reading(s, reply.family) && !Wants(s.choices, reply.family)
    ensures Taken(s, reply, spawns).(replies := rest) == Synced(s.(replies := rest, pending := None), spawns)
  {
    SyncIgnoresReplies(s.(pending := None), rest, spawns);
    hide Synced, Wants, Reading, Wanted, Same;
    assert s.(pending := None).(replies := rest) == s.(replies := rest, pending := None);
  }

  lemma WantedReplySettles(s: State, reply: Reply, rest: seq<Reply>, spawns: bool)
    requires Steady(s.(replies := [reply] + rest)) && Reading(s, reply.family) && Wants(s.choices, reply.family)
    ensures Sound(Taken(s, reply, spawns).(replies := rest))
  {
    hide Wanted, Same;
  }

  lemma NoReadIsSteady(s: State, replies: seq<Reply>, rest: seq<Reply>)
    requires Steady(s.(replies := replies))
    ensures Steady(s.(replies := rest, pending := None))
  {
    hide Wanted, Same;
  }

  /** A reply takes the read it answers off the outstanding ones. */
  lemma TakingIsSound(s: State, reply: Reply, rest: seq<Reply>, spawns: bool)
    requires Sound(s.(replies := [reply] + rest))
    ensures Sound(Taken(s, reply, spawns).(replies := rest))
  {
    hide Synced, Wants, Same, Steady, WithFont, Outstanding, IsAboutWanted, ReadingWanted;
    if !Reading(s, reply.family) {
      OthersStayOutstanding(s, reply, rest);
    } else if !Wants(s.choices, reply.family) {
      NoReadIsSteady(s, [reply] + rest, rest);
      SyncIsSound(s.(replies := rest, pending := None), spawns);
      UnwantedReplySyncs(s, reply, rest, spawns);
    } else {
      WantedReplySettles(s, reply, rest, spawns);
    }
  }

  lemma TakingKeepsTheRest(s: State, reply: Reply, spawns: bool)
    ensures var after := Taken(s, reply, spawns);
      after.replies == s.replies && after.choices == s.choices && after.catalog == s.catalog
  {
    hide Wanted, Same;
  }

  lemma {:induction false} TakingAllIsSound(s: State, queue: seq<Reply>, i: nat, spawns: bool)
    requires i <= |queue| && s.replies == [] && Sound(s.(replies := queue))
    ensures Sound(TakenAll(s, queue[..i], spawns).(replies := queue[i..]))
  {
    hide Sound, Taken;
    if i == 0 {
      assert queue[..0] == [] && queue[0..] == queue;
    } else {
      TakingAllIsSound(s, queue, i - 1, spawns);
      var before := TakenAll(s, queue[..i - 1], spawns);
      assert queue[i - 1..] == [queue[i - 1]] + queue[i..];
      TakingIsSound(before, queue[i - 1], queue[i..], spawns);
      assert queue[..i][..i - 1] == queue[..i - 1] && queue[..i][i - 1] == queue[i - 1];
    }
  }

  lemma {:induction false} TakingKeepsNoReplies(s: State, queue: seq<Reply>, spawns: bool)
    ensures TakenAll(s, queue, spawns).replies == s.replies && TakenAll(s, queue, spawns).choices == s.choices
    ensures TakenAll(s, queue, spawns).catalog == s.catalog
  {
    hide Taken;
    if queue != [] {
      var n := |queue| - 1;
      TakingKeepsNoReplies(s, queue[..n], spawns);
      TakingKeepsTheRest(TakenAll(s, queue[..n], spawns), queue[n], spawns);
    }
  }

  lemma PollIsSound(s: State, spawns: bool)
    requires Sound(s)
    ensures Sound(Polled(s, spawns)) && Polled(s, spawns).replies == []
  {
    var start, queue := s.(replies := []), s.replies;
    TakingAllIsSound(start, queue, |queue|, spawns);
    TakingKeepsNoReplies(start, queue, spawns);
    assert queue[..|queue|] == queue && queue[|queue|..] == [];
    var taken := TakenAll(start, queue, spawns);
    hide TakenAll, Wanted, Lower;
    assert taken.(replies := []) == taken && Sound(taken);
    SyncIsSound(taken, spawns);
  }

  lemma StepIsSound(s: State, step: Step)
    requires Sound(s) && Enabled(s, step)
    ensures Sound(Next(s, step))
  {
    match step {
      case Choose(choices, spawns) => SyncIsSound(s.(choices := choices), spawns);
      case Attach(spawns) => SyncIsSound(s.(hasContext := true, applied := true), spawns);
      case Scan(_) =>
      case Finish(i, ok) => FinishKeepsOutstanding(s, i, ok);
      case Poll(spawns) => PollIsSound(s, spawns);
    }
  }

  lemma FinishKeepsOutstanding(s: State, i: nat, ok: bool)
    requires Sound(s) && i < |s.inFlight|
    ensures Sound(Next(s, Finish(i, ok)))
  {
    hide Wanted, Lower;
    var after := Next(s, Finish(i, ok));
    if s.pending.Some? {
      var family := s.pending.value;
      if f: string :| f in s.inFlight && Same(f, family) {
        var j :| 0 <= j < |s.inFlight| && s.inFlight[j] == f;
        if j == i {
          assert after.replies[|s.replies|] in after.replies;
        } else {
          assert after.inFlight[if j < i then j else j - 1] == f;
        }
      } else {
        var r :| r in s.replies && Same(r.family, family);
        assert r in after.replies;
      }
    }
  }

  ghost predicate IsRun(s: State, steps: seq<Step>)
    decreases steps
  {
    steps == [] || (Enabled(s, steps[0]) && IsRun(Next(s, steps[0]), steps[1..]))
  }

  ghost function After(s: State, steps: seq<Step>): State
    requires IsRun(s, steps)
    decreases steps
  {
    if steps == [] then s else After(Next(s, steps[0]), steps[1..])
  }

  /**
   * However choices, the list of fonts and late or repeated replies interleave: a font said to be
   * used is the one installed and the one wanted now.
   */
  lemma {:induction false} UsedFontIsWanted(s: State, steps: seq<Step>)
    requires Sound(s) && IsRun(s, steps)
    ensures Sound(After(s, steps))
    ensures After(s, steps).font.Using? ==>
      After(s, steps).installed == Some(After(s, steps).font.name)
        && Wants(After(s, steps).choices, After(s, steps).font.name)
    decreases steps
  {
    hide Next, Enabled, Wanted, Lower;
    if steps != [] {
      StepIsSound(s, steps[0]);
      hide Sound;
      UsedFontIsWanted(Next(s, steps[0]), steps[1..]);
    }
  }

  lemma HostStartsSound(choices: Choices, catalog: Option<seq<string>>, spawns: bool)
    ensures Sound(Synced(Initial(choices, catalog), spawns))
  {
    SyncIsSound(Initial(choices, catalog), spawns);
  }

  /** A reply for a family that is not wanted installs no font of its own. */
  lemma StaleReplyInstallsNothing(s: State, reply: Reply, spawns: bool)
    requires !Wants(s.choices, reply.family)
    ensures var after := Taken(s, reply, spawns); after.source.FileSource? ==> after.source == s.source
  {
    hide Wanted, Lower;
  }

  /**
   * Once the fonts are listed and a look finds no read outstanding, nothing is loading and the status
   * names the family that is wanted.
   */
  lemma FontConverges(s: State, spawns: bool)
    requires Sound(s) && s.catalog.Some? && Polled(s, spawns).inFlight == []
    ensures var after := Polled(s, spawns); after.pending.None? && !after.font.Loading? && IsAboutWanted(after)
  {
    PollIsSound(s, spawns);
    TakingKeepsNoReplies(s.(replies := []), s.replies, spawns);
    hide TakenAll, Lower;
  }

  // MARK: Which font is wanted

  predicate IsLetterPair(a: char, b: char) {
    'a' <= a <= 'z' && 'A' <= b <= 'Z' && a - 'a' == b - 'A'
  }

  /** Two names are the same if they differ in nothing but the case of ASCII letters. */
  lemma SameIsUpToCase(a: string, b: string)
    ensures Same(a, b) <==>
      |a| == |b| && forall i :: 0 <= i < |a| ==> a[i] == b[i] || IsLetterPair(a[i], b[i]) || IsLetterPair(b[i], a[i])
  {
    if |a| == |b| {
      forall i | 0 <= i < |a|
        ensures Lower(a)[i] == Lower(b)[i] <==> a[i] == b[i] || IsLetterPair(a[i], b[i]) || IsLetterPair(b[i], a[i])
      {
        LettersLower(a[i], b[i]);
      }
    }
  }

  lemma LettersLower(a: char, b: char)
    ensures LowerChar(a) == LowerChar(b) <==> a == b || IsLetterPair(a, b) || IsLetterPair(b, a)
  {
  }

  lemma {:induction false} ThemeIsFound(themes: seq<Theme>, id: nat)
    ensures match FindTheme(themes, id)
            case Some(theme) => theme in themes && theme.id == id
            case None => forall theme <- themes :: theme.id != id
  {
    if themes != [] {
      ThemeIsFound(themes[1..], id);
    }
  }

  /**
   * The chosen theme's own font goes before the preference, and its "System Mono" is the system's
   * font; a theme without a font, or one that is not here, leaves it to the preference.
   */
  lemma ThemesChooseFirst(choices: Choices, theme: Theme)
    requires forall t <- choices.themes, u <- choices.themes :: t.id == u.id ==> t == u
    ensures theme in choices.themes && choices.prefs.selected == Some(theme.id) && theme.font.Some? ==>
      Wanted(choices) == if theme.font == Some("System Mono") then None else theme.font
    ensures theme in choices.themes && choices.prefs.selected == Some(theme.id) && theme.font.None? ==>
      Wanted(choices) == choices.prefs.font
    ensures (forall t <- choices.themes :: choices.prefs.selected != Some(t.id)) ==>
      Wanted(choices) == choices.prefs.font
  {
    if choices.prefs.selected.Some? {
      ThemeIsFound(choices.themes, choices.prefs.selected.value);
    }
  }

  /** What starting a read notes: what is awaited, and that it is loading; without a thread, that it failed. */
  lemma ReadsAreAwaited(s: State, spawns: bool)
    requires Synced(s, true).inFlight != s.inFlight
    ensures var after, family := Synced(s, spawns), Wanted(s.choices).value;
      && after.source == s.source && after.installed == s.installed
      && (spawns ==> after.pending == Some(family) && after.font == Loading(family))
      && (!spawns ==> after.pending == None && after.font == Failed(family))
  {
    hide Wanted, Lower, InCatalog;
  }

  /** The awaited reply settles the wanted family at the next look, and no further read is started. */
  lemma RepliesSettle(s: State, reply: Reply, spawns: bool)
    requires s.replies == [reply] && Reading(s, reply.family) && Wants(s.choices, reply.family)
    ensures var after := Polled(s, spawns);
      && after.inFlight == s.inFlight && after.pending == None && after.replies == []
      && after.font == if reply.ok then Using(reply.family) else Failed(reply.family)
  {
    assert [reply][..0] == [];
    assert TakenAll(s.(replies := []), [], spawns) == s.(replies := []);
    hide Wanted, Lower, Synced;
  }

  /** A file is read only for a listed family that is wanted, not settled yet and not being read. */
  lemma ReadsOnlyWhatItMust(s: State, spawns: bool)
    ensures var after := Synced(s, spawns);
      after.inFlight == s.inFlight || after.inFlight == s.inFlight + [Wanted(s.choices).value]
    ensures Synced(s, spawns).inFlight != s.inFlight <==>
      && spawns && Wanted(s.choices).Some?
      && var family := Wanted(s.choices).value;
        && !Same(family, BUNDLED_FONT) && s.catalog.Some? && InCatalog(s.catalog.value, family)
        && !(s.pending.Some? && Same(s.pending.value, family))
        && !((s.font.Using? || s.font.Missing? || s.font.Failed?) && Same(s.font.name, family))
  {
    hide Wanted, Lower, InCatalog;
  }

  // MARK: What becomes of a font that is read

  /** One family, one file: reading it ends as `opens` says; `spawned` is that every thread could be started. */
  predicate IsSo(s: State, step: Step, opens: string -> bool, spawned: bool)
    requires Enabled(s, step)
  {
    match step
    case Finish(i, ok) => ok == opens(Lower(s.inFlight[i]))
    case Choose(_, spawns) => spawned ==> spawns
    case Attach(spawns) => spawned ==> spawns
    case Poll(spawns) => spawned ==> spawns
    case Scan(_) => true
  }

  ghost predicate AllSo(s: State, steps: seq<Step>, opens: string -> bool, spawned: bool)
    requires IsRun(s, steps)
    decreases steps
  {
    steps == [] || (IsSo(s, steps[0], opens, spawned) && AllSo(Next(s, steps[0]), steps[1..], opens, spawned))
  }

  predicate IsListed(s: State, family: string) {
    s.catalog.Some? && InCatalog(s.catalog.value, family) && !Same(family, BUNDLED_FONT)
  }

  /** What was handed to the context is what was chosen for it, and the context has it as soon as there is one. */
  predicate IsHandedOver(s: State) {
    && s.applied == s.hasContext
    && match s.source
       case SystemSource => s.installed == None
       case BundledSource => s.installed == Some(BUNDLED_FONT)
       case FileSource(family) => s.installed == Some(family) && !Same(family, BUNDLED_FONT)
  }

  /** Each status is true of its family: used because it was read, missing from the list, or failed. */
  predicate IsHonest(s: State, opens: string -> bool, spawned: bool) {
    && IsHandedOver(s)
    && (s.pending.Some? ==> IsListed(s, s.pending.value))
    && (forall reply <- s.replies :: reply.ok == opens(Lower(reply.family)))
    && match s.font
       case System => true
       case Loading(name) => !Same(name, BUNDLED_FONT)
       case Using(name) =>
         if Same(name, BUNDLED_FONT) then name == BUNDLED_FONT && s.source == BundledSource
         else IsListed(s, name) && opens(Lower(name)) && s.source == FileSource(name)
       case Missing(name) =>
         && s.catalog.Some? && !InCatalog(s.catalog.value, name)
         && !Same(name, BUNDLED_FONT) && s.source == BundledSource
       case Failed(name) =>
         && IsListed(s, name) && (spawned ==> !opens(Lower(name)) && s.source == BundledSource)
  }

  lemma SyncIsHonest(s: State, spawns: bool, opens: string -> bool, spawned: bool)
    requires IsHonest(s, opens, spawned) && (spawned ==> spawns)
    ensures IsHonest(Synced(s, spawns), opens, spawned)
  {
    hide Wanted, Lower;
  }

  lemma TakingIsHonest(s: State, reply: Reply, spawns: bool, opens: string -> bool, spawned: bool)
    requires IsHonest(s, opens, spawned) && (spawned ==> spawns) && reply.ok == opens(Lower(reply.family))
    ensures IsHonest(Taken(s, reply, spawns), opens, spawned)
  {
    hide Wanted, Lower, Synced;
    if Reading(s, reply.family) && !Wants(s.choices, reply.family) {
      SyncIsHonest(s.(pending := None), spawns, opens, spawned);
    }
  }

  lemma {:induction false} TakingAllIsHonest(
    s: State, queue: seq<Reply>, spawns: bool, opens: string -> bool, spawned: bool
  )
    requires IsHonest(s, opens, spawned) && (spawned ==> spawns)
    requires forall reply <- queue :: reply.ok == opens(Lower(reply.family))
    ensures IsHonest(TakenAll(s, queue, spawns), opens, spawned)
  {
    hide IsHonest, Taken, Lower;
    if queue != [] {
      var n := |queue| - 1;
      TakingAllIsHonest(s, queue[..n], spawns, opens, spawned);
      TakingIsHonest(TakenAll(s, queue[..n], spawns), queue[n], spawns, opens, spawned);
    }
  }

  lemma PollIsHonest(s: State, spawns: bool, opens: string -> bool, spawned: bool)
    requires IsHonest(s, opens, spawned) && (spawned ==> spawns)
    ensures IsHonest(Polled(s, spawns), opens, spawned)
  {
    var start := s.(replies := []);
    assert IsHonest(start, opens, spawned) by {
      hide InCatalog, Same, Lower;
    }
    TakingAllIsHonest(start, s.replies, spawns, opens, spawned);
    hide IsHonest, TakenAll, Synced;
    var taken := TakenAll(start, s.replies, spawns);
    SyncIsHonest(taken, spawns, opens, spawned);
  }

  lemma StepIsHonest(s: State, step: Step, opens: string -> bool, spawned: bool)
    requires IsHonest(s, opens, spawned) && Enabled(s, step) && IsSo(s, step, opens, spawned)
    requires Steady(s)
    ensures IsHonest(Next(s, step), opens, spawned)
  {
    hide Lower, Synced, Polled, Wanted, InCatalog, Same;
    match step {
      case Choose(choices, spawns) => SyncIsHonest(s.(choices := choices), spawns, opens, spawned);
      case Attach(spawns) => SyncIsHonest(s.(hasContext := true, applied := true), spawns, opens, spawned);
      case Scan(_) =>
      case Finish(_, _) =>
      case Poll(spawns) => PollIsHonest(s, spawns, opens, spawned);
    }
  }

  lemma {:induction false} RunIsHonest(s: State, steps: seq<Step>, opens: string -> bool, spawned: bool)
    requires Sound(s) && IsHonest(s, opens, spawned) && IsRun(s, steps) && AllSo(s, steps, opens, spawned)
    ensures Sound(After(s, steps)) && IsHonest(After(s, steps), opens, spawned)
    decreases steps
  {
    hide Next, Enabled, IsHonest, IsSo, Wanted, Lower;
    if steps != [] {
      StepIsSound(s, steps[0]);
      StepIsHonest(s, steps[0], opens, spawned);
      hide Sound;
      RunIsHonest(Next(s, steps[0]), steps[1..], opens, spawned);
    }
  }

  /** The font of a host that waits for nothing. */
  predicate IsSettled(s: State, opens: string -> bool, spawned: bool) {
    match Wanted(s.choices)
    case None => s.font.System? && s.source.SystemSource?
    case Some(family) =>
      if Same(family, BUNDLED_FONT) then s.font == Using(BUNDLED_FONT) && s.source == BundledSource
      else
        var listed, readable := IsListed(s, family), opens(Lower(family));
        && (s.font.Using? || s.font.Missing? || s.font.Failed?) && Same(s.font.name, family)
        && (s.font.Missing? <==> !listed) && (s.font.Missing? ==> s.source == BundledSource)
        && (s.font.Using? ==> listed && readable && s.source == FileSource(s.font.name))
        && (spawned ==> (s.font.Using? <==> listed && readable))
        && (spawned ==> (s.font.Failed? <==> listed && !readable) && (s.font.Failed? ==> s.source == BundledSource))
  }

  lemma StatusIsTrue(s: State, opens: string -> bool, spawned: bool)
    requires Sound(s) && IsHonest(s, opens, spawned) && s.catalog.Some?
    requires s.pending.None? && !s.font.Loading? && IsAboutWanted(s)
    ensures IsHandedOver(s) && IsSettled(s, opens, spawned)
  {
    hide Wanted, Lower;
  }

  /**
   * However choices, the list of fonts, threads and late replies interleave: once the fonts are
   * listed and a look finds no read outstanding, the wanted family is missing exactly if it is not
   * listed; while every thread could be started, it is used, from its file, exactly if it is
   * listed and its file can be read, and has failed exactly if it is listed and cannot, when the
   * built-in font stands in. A context has what the status says.
   */
  lemma FontIsWhatWasRead(
    choices: Choices, catalog: Option<seq<string>>, spawns: bool, steps: seq<Step>, opens: string -> bool,
    spawned: bool
  )
    requires var start := Synced(Initial(choices, catalog), spawns);
      && (spawned ==> spawns) && IsRun(start, steps) && AllSo(start, steps, opens, spawned)
      && var s := After(start, steps); s.catalog.Some? && Polled(s, spawns).inFlight == []
    ensures var end := Polled(After(Synced(Initial(choices, catalog), spawns), steps), spawns);
      IsHandedOver(end) && IsSettled(end, opens, spawned)
  {
    var start := Synced(Initial(choices, catalog), spawns);
    HostStartsSound(choices, catalog, spawns);
    HostStartsHonest(choices, catalog, opens, spawned);
    hide *;
    SyncIsHonest(Initial(choices, catalog), spawns, opens, spawned);
    RunIsHonest(start, steps, opens, spawned);
    PollSettles(After(start, steps), spawns, opens, spawned);
  }

  lemma HostStartsHonest(choices: Choices, catalog: Option<seq<string>>, opens: string -> bool, spawned: bool)
    ensures IsHonest(Initial(choices, catalog), opens, spawned)
  {
  }

  lemma PollSettles(s: State, spawns: bool, opens: string -> bool, spawned: bool)
    requires Sound(s) && IsHonest(s, opens, spawned) && s.catalog.Some? && (spawned ==> spawns)
    requires Polled(s, spawns).inFlight == []
    ensures IsHandedOver(Polled(s, spawns)) && IsSettled(Polled(s, spawns), opens, spawned)
  {
    hide *;
    PollIsHonest(s, spawns, opens, spawned);
    PollIsSound(s, spawns);
    FontConverges(s, spawns);
    PollKeepsCatalog(s, spawns);
    StatusIsTrue(Polled(s, spawns), opens, spawned);
  }

  lemma PollKeepsCatalog(s: State, spawns: bool)
    ensures Polled(s, spawns).catalog == s.catalog
  {
    hide TakenAll, Wanted, Lower;
    TakingKeepsNoReplies(s.(replies := []), s.replies, spawns);
  }

  // MARK: Runs of saving

  datatype Kept = Kept(choices: Choices, unsaved: Unsaved, store: Stored)

  datatype Act =
    | Edit(choices: Choices, prefs: bool, themes: bool, nowMs: int)
    | Frame(nowMs: int, themesOk: bool, prefsOk: bool)
    | Synchronized(store: Stored)

  /** An edit says what it changes, and themes are only edited while they can be saved. */
  predicate Permitted(k: Kept, act: Act) {
    act.Edit? ==> (
      && (act.prefs || act.choices.prefs == k.choices.prefs)
      && (act.themes || act.choices.themes == k.choices.themes)
      && (act.themes ==> k.unsaved.writable))
  }

  function Acted(k: Kept, act: Act): Kept {
    match act
    case Edit(choices, prefs, themes, nowMs) =>
      k.(choices := choices, unsaved :=
        Unsaved(k.unsaved.themes || themes, k.unsaved.prefs || prefs, Some(nowMs), k.unsaved.writable))
    case Frame(nowMs, themesOk, prefsOk) =>
      if !Due(k.unsaved, nowMs) then k
      else k.(unsaved := Flushed(k.unsaved, themesOk, prefsOk),
        store := Written(k.store, k.choices, k.unsaved, themesOk, prefsOk))
    case Synchronized(store) =>
      if k.unsaved.themes || k.unsaved.prefs then k.(store := store)
      else Kept(Choices(store.prefs, store.themes), k.unsaved.(writable := store.readable), store)
  }

  function ActedAll(k: Kept, acts: seq<Act>): Kept {
    if acts == [] then k else Acted(ActedAll(k, acts[..|acts| - 1]), acts[|acts| - 1])
  }

  /** What is not saved yet has a save scheduled. */
  predicate Scheduled(u: Unsaved) {
    u.themes || u.prefs ==> u.changedAt.Some?
  }

  lemma {:induction false} UnsavedIsScheduled(k: Kept, acts: seq<Act>)
    requires Scheduled(k.unsaved)
    ensures Scheduled(ActedAll(k, acts).unsaved)
  {
    if acts != [] {
      UnsavedIsScheduled(k, acts[..|acts| - 1]);
    }
  }

  /** Nothing a person changed is lost to a reload: only saving it makes it clean. */
  lemma EditsAreNeverDiscarded(k: Kept, act: Act)
    requires !act.Edit? && Permitted(k, act)
    ensures k.unsaved.prefs || k.unsaved.themes ==> Acted(k, act).choices == k.choices
    ensures k.unsaved.prefs ==> Acted(k, act).unsaved.prefs || Acted(k, act).store.prefs == k.choices.prefs
    ensures k.unsaved.themes ==> Acted(k, act).unsaved.themes || Acted(k, act).store.themes == k.choices.themes
  {
  }

  /** What is saved is what the editor shows. */
  predicate Mirrored(k: Kept) {
    && (!k.unsaved.prefs ==> k.store.prefs == k.choices.prefs)
    && (!k.unsaved.themes ==> k.store.themes == k.choices.themes)
  }

  /**
   * Edits and saves keep the clean half of the choices as it is stored. What sync brings does exactly
   * when nothing is unsaved, or it did not touch the clean half: an unsaved preference also holds
   * back themes from elsewhere.
   */
  lemma MirroredExactly(k: Kept, act: Act)
    requires Mirrored(k) && Permitted(k, act)
    ensures Mirrored(Acted(k, act)) <==> Meets(k, act)
  {
  }

  /** A sync meets nothing unsaved, or leaves the clean half alone. */
  predicate Meets(k: Kept, act: Act) {
    act.Synchronized? && (k.unsaved.themes || k.unsaved.prefs) ==>
      (k.unsaved.prefs || act.store.prefs == k.choices.prefs)
        && (k.unsaved.themes || act.store.themes == k.choices.themes)
  }

  predicate AllPermitted(k: Kept, acts: seq<Act>) {
    acts == [] || (
      var n := |acts| - 1;
      AllPermitted(k, acts[..n]) && Permitted(ActedAll(k, acts[..n]), acts[n]))
  }

  /** In every state of the run. */
  predicate AlwaysMirrored(k: Kept, acts: seq<Act>) {
    Mirrored(ActedAll(k, acts)) && (acts == [] || AlwaysMirrored(k, acts[..|acts| - 1]))
  }

  predicate AllMeet(k: Kept, acts: seq<Act>) {
    acts == [] || (
      var n := |acts| - 1;
      AllMeet(k, acts[..n]) && Meets(ActedAll(k, acts[..n]), acts[n]))
  }

  /**
   * Over every run of edits, frames and syncs: what is saved is in every state what the editor
   * shows if and only if each sync met nothing unsaved or left the clean half alone.
   */
  lemma {:induction false} MirroredThroughout(k: Kept, acts: seq<Act>)
    requires Mirrored(k) && AllPermitted(k, acts)
    ensures AlwaysMirrored(k, acts) <==> AllMeet(k, acts)
  {
    hide Mirrored, Acted, Meets, Permitted;
    if acts != [] {
      var n := |acts| - 1;
      MirroredThroughout(k, acts[..n]);
      if Mirrored(ActedAll(k, acts[..n])) {
        MirroredExactly(ActedAll(k, acts[..n]), acts[n]);
      }
    }
  }

  /**
   * A save: each half that is unsaved is written as it is now, or left unsaved and the store as it
   * was; it stays unsaved only if it may not be written or writing failed, and then a save is still due.
   */
  lemma SavesWriteOrKeep(u: Unsaved, store: Stored, choices: Choices, themesOk: bool, prefsOk: bool)
    ensures var after, written := Flushed(u, themesOk, prefsOk), Written(store, choices, u, themesOk, prefsOk);
      && (after.themes <==> u.themes && (!u.writable || !themesOk)) && (after.prefs <==> u.prefs && !prefsOk)
      && written.themes == (if u.themes && !after.themes then choices.themes else store.themes)
      && written.prefs == (if u.prefs && !after.prefs then choices.prefs else store.prefs)
      && after.writable == u.writable
      && after.changedAt == (if after.themes || after.prefs then u.changedAt else None)
  {
  }

  /** A frame saves only what has been left alone for 400 ms, and an edit puts that off. */
  lemma FramesSaveAfterAMoment(k: Kept, choices: Choices, prefs: bool, themes: bool, at: int, frame: Act)
    requires frame.Frame?
    ensures k.unsaved.changedAt == None || frame.nowMs < k.unsaved.changedAt.value + 400 ==> Acted(k, frame) == k
    ensures k.unsaved.changedAt.Some? && k.unsaved.changedAt.value + 400 <= frame.nowMs ==>
      var after := Acted(k, frame);
      && after.choices == k.choices && after.unsaved == Flushed(k.unsaved, frame.themesOk, frame.prefsOk)
      && after.store == Written(k.store, k.choices, k.unsaved, frame.themesOk, frame.prefsOk)
    ensures Acted(k, Edit(choices, prefs, themes, at)).unsaved.changedAt == Some(at)
    ensures Acted(k, Edit(choices, prefs, themes, at)).store == k.store
  {
  }

  /** A sync that meets nothing unsaved is shown, and its themes are written over only if all of them could be read. */
  lemma SyncsAreShown(k: Kept, store: Stored)
    requires !k.unsaved.themes && !k.unsaved.prefs
    ensures var after := Acted(k, Synchronized(store));
      && after.choices == Choices(store.prefs, store.themes) && after.store == store
      && !after.unsaved.themes && !after.unsaved.prefs && after.unsaved.writable == store.readable
  {
  }

  // MARK: What becomes of stored themes

  const ANY_THEME := Theme(0, None)

  function WithThemes(k: Kept, themes: seq<Theme>): Kept {
    k.(store := k.store.(themes := themes))
  }

  predicate SavesThemes(k: Kept, act: Act) {
    act.Frame? && Due(k.unsaved, act.nowMs) && k.unsaved.themes && k.unsaved.writable && act.themesOk
  }

  predicate SomeSavesThemes(k: Kept, acts: seq<Act>) {
    acts != [] && (
      var n := |acts| - 1;
      SomeSavesThemes(k, acts[..n]) || SavesThemes(ActedAll(k, acts[..n]), acts[n]))
  }

  lemma ActedWithThemes(k: Kept, act: Act, themes: seq<Theme>)
    requires !act.Synchronized?
    ensures SavesThemes(WithThemes(k, themes), act) == SavesThemes(k, act)
    ensures var after := Acted(k, act);
      Acted(WithThemes(k, themes), act) == WithThemes(after, if SavesThemes(k, act) then after.store.themes else themes)
  {
  }

  lemma {:induction false} ThemesAfterRun(k: Kept, acts: seq<Act>, themes: seq<Theme>)
    requires forall act <- acts :: !act.Synchronized?
    ensures var after := ActedAll(k, acts);
      ActedAll(WithThemes(k, themes), acts)
        == WithThemes(after, if SomeSavesThemes(k, acts) then after.store.themes else themes)
  {
    hide Acted, SavesThemes;
    if acts != [] {
      var n := |acts| - 1;
      var before := ActedAll(k, acts[..n]);
      ThemesAfterRun(k, acts[..n], themes);
      assert !acts[n].Synchronized?;
      ActedWithThemes(before, acts[n], ActedAll(WithThemes(k, themes), acts[..n]).store.themes);
      ActedWithThemes(before, acts[n], before.store.themes);
    }
  }

  /**
   * What the store holds of themes, whoever wrote it, survives a run of edits and frames, whatever
   * it is, if and only if no frame of the run saves themes.
   */
  lemma StoredThemesSurvive(k: Kept, acts: seq<Act>)
    requires forall act <- acts :: !act.Synchronized?
    ensures (forall themes: seq<Theme> :: ActedAll(WithThemes(k, themes), acts).store.themes == themes) <==>
      !SomeSavesThemes(k, acts)
  {
    hide ActedAll, SomeSavesThemes;
    forall themes: seq<Theme>
      ensures !SomeSavesThemes(k, acts) ==> ActedAll(WithThemes(k, themes), acts).store.themes == themes
    {
      ThemesAfterRun(k, acts, themes);
    }
    if SomeSavesThemes(k, acts) {
      var saved := ActedAll(k, acts).store.themes;
      var other := if saved == [] then [ANY_THEME] else [];
      ThemesAfterRun(k, acts, other);
      assert ActedAll(WithThemes(k, other), acts).store.themes == saved != other;
    }
  }

  lemma {:induction false} UnwritableStays(k: Kept, acts: seq<Act>)
    requires !k.unsaved.writable && forall act <- acts :: !act.Synchronized?
    ensures !ActedAll(k, acts).unsaved.writable && !SomeSavesThemes(k, acts)
  {
    if acts != [] {
      UnwritableStays(k, acts[..|acts| - 1]);
    }
  }

  /** Themes that came with some that could not be read survive every edit and frame until the next sync. */
  lemma UnreadThemesAreKept(k: Kept, store: Stored, acts: seq<Act>)
    requires !k.unsaved.themes && !k.unsaved.prefs && !store.readable && forall act <- acts :: !act.Synchronized?
    ensures ActedAll(Acted(k, Synchronized(store)), acts).store.themes == store.themes
  {
    var synced := Acted(k, Synchronized(store));
    SyncsAreShown(k, store);
    UnwritableStays(synced, acts);
    StoredThemesSurvive(synced, acts);
    assert WithThemes(synced, store.themes) == synced;
  }

  /** A theme from another Mac that arrived while a preference was unsaved is written over by the next theme edit. */
  lemma SyncedThemeCanBeUndone(mine: Theme, theirs: Theme)
    requires mine.id != theirs.id
    ensures var k := Kept(Choices(Prefs(None, None), []), Unsaved(false, false, None, true),
      Stored(Prefs(None, None), [], true));
      var acts := [
        Edit(Choices(Prefs(None, Some("Menlo")), []), true, false, 0),
        Synchronized(Stored(Prefs(None, None), [theirs], true)),
        Frame(SAVE_DELAY_MS, true, true),
        Edit(Choices(Prefs(None, Some("Menlo")), [mine]), false, true, 1_000),
        Frame(1_000 + SAVE_DELAY_MS, true, true)];
      Mirrored(k) && theirs in ActedAll(k, acts[..3]).store.themes && theirs !in ActedAll(k, acts).store.themes
  {
    var k := Kept(Choices(Prefs(None, None), []), Unsaved(false, false, None, true),
      Stored(Prefs(None, None), [], true));
    var acts := [
      Edit(Choices(Prefs(None, Some("Menlo")), []), true, false, 0),
      Synchronized(Stored(Prefs(None, None), [theirs], true)),
      Frame(SAVE_DELAY_MS, true, true),
      Edit(Choices(Prefs(None, Some("Menlo")), [mine]), false, true, 1_000),
      Frame(1_000 + SAVE_DELAY_MS, true, true)];
    assert acts[..0] == [] && acts[..5] == acts;
    ActedNext(k, acts, 0);
    ActedNext(k, acts, 1);
    ActedNext(k, acts, 2);
    ActedNext(k, acts, 3);
    ActedNext(k, acts, 4);
    hide ActedAll;
    var k3 := Acted(Acted(Acted(k, acts[0]), acts[1]), acts[2]);
    assert k3.store == Stored(Prefs(None, Some("Menlo")), [theirs], true)
      && k3.unsaved == Unsaved(false, false, None, true);
    assert Acted(Acted(k3, acts[3]), acts[4]).store.themes == [mine];
  }

  lemma ActedNext(k: Kept, acts: seq<Act>, i: nat)
    requires i < |acts|
    ensures ActedAll(k, acts[..i + 1]) == Acted(ActedAll(k, acts[..i]), acts[i]) && ActedAll(k, []) == k
  {
    assert acts[..i + 1][..i] == acts[..i];
  }
}
