/** The inline-script collector of the standalone-page builder.

    An HTML tokenizer (Python's `HTMLParser`, not part of this model) turns
    the page into a stream of events and calls one handler per event. The
    collector reacts to those events with two flags (`collect`, `hasSrc`), a
    buffer of text fragments and the list of finished inline scripts.

    The module has three layers:
    - `Step` and `Run`: the handlers' effect as a pure transition function
      on a `State`, and its fold over an event stream;
    - `OpenScript`, `BodyText` and `Expected`: a stateless description of
      which scripts the page yields, proved equal to what `Run` collects;
    - class `ScriptExtractor`: the handlers as methods that update fields. */
module ScriptExtraction {
  import opened Text

  datatype Option<T> = None | Some(value: T)

  /** An attribute as the tokenizer delivers it; a bare attribute has no value. */
  datatype Attribute = Attribute(name: string, value: Option<string>)

  /** The tokenizer events the collector handles. */
  datatype Event =
    | StartTag(tag: string, attrs: seq<Attribute>)
    | EndTag(tag: string)
    | Data(data: string)
    | Comment(data: string)
    | EntityRef(name: string)
    | CharRef(name: string)

  /** `tag.lower() == "script"`, letter by letter (`IsScriptNameLower`). */
  predicate IsScriptName(tag: string) {
    |tag| == 6 &&
    AsciiLowerChar(tag[0]) == 's' && AsciiLowerChar(tag[1]) == 'c' &&
    AsciiLowerChar(tag[2]) == 'r' && AsciiLowerChar(tag[3]) == 'i' &&
    AsciiLowerChar(tag[4]) == 'p' && AsciiLowerChar(tag[5]) == 't'
  }

  lemma IsScriptNameLower(tag: string)
    ensures IsScriptName(tag) <==> AsciiLower(tag) == "script"
  {
    if AsciiLower(tag) == "script" {
      var l := AsciiLower(tag);
      assert l[0] == 's' && l[1] == 'c' && l[2] == 'r' && l[3] == 'i' && l[4] == 'p' && l[5] == 't';
    }
    if IsScriptName(tag) {
      assert AsciiLower(tag) == "script";
    }
  }

  /** `name.lower() == "src"`, letter by letter. */
  predicate IsSrcName(name: string) {
    |name| == 3 &&
    AsciiLowerChar(name[0]) == 's' && AsciiLowerChar(name[1]) == 'r' &&
    AsciiLowerChar(name[2]) == 'c'
  }

  /** `"src" in {name.lower(): val for name, val in attrs}`, scanning the
      attributes in turn (`HasSrcSpec`). */
  predicate HasSrc(attrs: seq<Attribute>) {
    attrs != [] && (IsSrcName(attrs[0].name) || HasSrc(attrs[1..]))
  }

  /** Some attribute name lower-cases to `src` exactly when `HasSrc` finds one. */
  lemma {:induction false} HasSrcSpec(attrs: seq<Attribute>)
    ensures HasSrc(attrs) <==> exists a | a in attrs :: AsciiLower(a.name) == "src"
  {
    if attrs != [] {
      HasSrcSpec(attrs[1..]);
      var n := attrs[0].name;
      if AsciiLower(n) == "src" {
        assert AsciiLower(n)[0] == 's' && AsciiLower(n)[1] == 'r' && AsciiLower(n)[2] == 'c';
      }
      if IsSrcName(n) {
        assert AsciiLower(n) == "src";
      }
      assert forall a :: a in attrs <==> a == attrs[0] || a in attrs[1..];
    }
  }

  predicate IsScriptStart(e: Event) {
    e.StartTag? && IsScriptName(e.tag)
  }

  /** A script start tag without a `src` attribute: it opens an inline script. */
  predicate IsInlineStart(e: Event) {
    IsScriptStart(e) && !HasSrc(e.attrs)
  }

  predicate IsScriptEnd(e: Event) {
    e.EndTag? && IsScriptName(e.tag)
  }

  predicate IsScriptTag(e: Event) {
    IsScriptStart(e) || IsScriptEnd(e)
  }

  /** The fragment a content event adds to the buffer of an open inline
      script: data as is, a comment re-wrapped in `<!--` and `-->`, an entity
      reference as `&name;` and a character reference as `&#name;`. Tags add
      nothing. */
  function Piece(e: Event): string {
    match e
    case Data(d) => d
    case Comment(d) => "<!--" + d + "-->"
    case EntityRef(n) => "&" + n + ";"
    case CharRef(n) => "&#" + n + ";"
    case StartTag(_, _) => ""
    case EndTag(_) => ""
  }

  // ---------------------------------------------------------------------
  // The handlers as a transition function
  // ---------------------------------------------------------------------

  datatype State = State(collect: bool, hasSrc: bool, buffer: seq<string>, scripts: seq<string>)

  /** The state of a freshly constructed collector. */
  const Initial := State(false, false, [], [])

  /** Every reachable state: the collector never collects for a script with `src`. */
  predicate Consistent(s: State) {
    s.collect ==> !s.hasSrc
  }

  /** The effect of one handler call. */
  function Step(s: State, e: Event): State {
    match e
    case StartTag(tag, attrs) =>
      if !IsScriptName(tag) then s
      else if HasSrc(attrs) then s.(hasSrc := true, collect := false)
      else s.(hasSrc := false, collect := true, buffer := [])
    case EndTag(tag) =>
      if !IsScriptName(tag) then s
      else
        var scripts := if s.collect && !s.hasSrc then s.scripts + [Concat(s.buffer)] else s.scripts;
        State(false, false, [], scripts)
    case _ =>
      if s.collect && !s.hasSrc then s.(buffer := s.buffer + [Piece(e)]) else s
  }

  /** The effect of a stream of handler calls, in order. */
  function Run(s: State, events: seq<Event>): State
    decreases |events|
  {
    if events == [] then s
    else Step(Run(s, events[..|events| - 1]), events[|events| - 1])
  }

  lemma RunSnoc(s: State, events: seq<Event>, e: Event)
    ensures Run(s, events + [e]) == Step(Run(s, events), e)
  {
    assert (events + [e])[..|events|] == events;
  }

  /** Feeding two streams one after the other is feeding their concatenation. */
  lemma {:induction false} RunAppend(s: State, first: seq<Event>, second: seq<Event>)
    ensures Run(s, first + second) == Run(Run(s, first), second)
  {
    if second == [] {
      assert first + second == first;
    } else {
      var init := second[..|second| - 1];
      var e := second[|second| - 1];
      assert second == init + [e];
      assert first + second == (first + init) + [e];
      RunAppend(s, first, init);
      RunSnoc(s, first + init, e);
      RunSnoc(Run(s, first), init, e);
    }
  }

  // ---------------------------------------------------------------------
  // A stateless description of the collected scripts
  // ---------------------------------------------------------------------

  /** The text an inline script body contributes: its pieces in order. */
  function BodyText(events: seq<Event>): string
    decreases |events|
  {
    if events == [] then ""
    else BodyText(events[..|events| - 1]) + Piece(events[|events| - 1])
  }

  /** The position of the start tag of the inline script still open after
      `events`: the last script tag of `events`, when that tag is a start tag
      without `src`. */
  function OpenScript(events: seq<Event>): (open: Option<nat>)
    ensures open.Some? ==> open.value < |events|
    decreases |events|
  {
    if events == [] then None
    else
      var last := |events| - 1;
      var e := events[last];
      if IsInlineStart(e) then Some(last)
      else if IsScriptTag(e) then None
      else OpenScript(events[..last])
  }

  /** `OpenScript` finds an inline start tag with no script tag after it, and
      finds none exactly when every inline start tag is followed by a script tag. */
  lemma {:induction false} OpenScriptSpec(events: seq<Event>)
    ensures OpenScript(events).Some? ==>
      OpenScript(events).value < |events| && IsInlineStart(events[OpenScript(events).value]) &&
      forall k :: OpenScript(events).value < k < |events| ==> !IsScriptTag(events[k])
    ensures OpenScript(events).None? ==>
      forall m :: 0 <= m < |events| && IsInlineStart(events[m]) ==>
        exists k :: m < k < |events| && IsScriptTag(events[k])
    decreases |events|
  {
    if events != [] {
      var last := |events| - 1;
      var init := events[..last];
      OpenScriptSpec(init);
      if !IsScriptTag(events[last]) {
        assert forall k :: 0 <= k < last ==> events[k] == init[k];
        if OpenScript(init).None? {
          forall m | 0 <= m < |events| && IsInlineStart(events[m])
            ensures exists k :: m < k < |events| && IsScriptTag(events[k])
          {
            assert m < last;
            assert IsInlineStart(init[m]);
            var k :| m < k < |init| && IsScriptTag(init[k]);
            assert IsScriptTag(events[k]);
          }
        }
      } else if !IsInlineStart(events[last]) {
        forall m | 0 <= m < |events| && IsInlineStart(events[m])
          ensures exists k :: m < k < |events| && IsScriptTag(events[k])
        {
          assert m < last;
          assert IsScriptTag(events[last]);
        }
      }
    }
  }

  /** The scripts the page yields: one per script end tag that closes an
      open inline script, holding the body text since its start tag. */
  function Expected(events: seq<Event>): seq<string>
    decreases |events|
  {
    if events == [] then []
    else
      var init := events[..|events| - 1];
      var e := events[|events| - 1];
      var open := OpenScript(init);
      if IsScriptEnd(e) && open.Some? then Expected(init) + [BodyText(init[open.value + 1..])]
      else Expected(init)
  }

  /** Number of script end tags in `events`. */
  function ScriptEnds(events: seq<Event>): nat
    decreases |events|
  {
    if events == [] then 0
    else ScriptEnds(events[..|events| - 1]) + (if IsScriptEnd(events[|events| - 1]) then 1 else 0)
  }

  /** The collector's state `s` agrees with the stateless description of
      `events`: it is consistent, it has collected `Expected(events)`, it is
      collecting exactly when an inline script is open, and its buffer then
      spells that script's body so far. */
  predicate Tracks(events: seq<Event>, s: State) {
    Consistent(s) &&
    s.scripts == Expected(events) &&
    (s.collect <==> OpenScript(events).Some?) &&
    (OpenScript(events).Some? ==> Concat(s.buffer) == BodyText(events[OpenScript(events).value + 1..]))
  }

  /** Starting from a fresh collector, the handlers collect exactly the
      scripts of `Expected`; the collector is collecting exactly when an
      inline script is open, and its buffer then spells that script's body. */
  lemma {:induction false} RunMatchesExpected(events: seq<Event>)
    ensures Consistent(Run(Initial, events))
    ensures Run(Initial, events).scripts == Expected(events)
    ensures Run(Initial, events).collect <==> OpenScript(events).Some?
    ensures OpenScript(events).Some? ==>
      Concat(Run(Initial, events).buffer) == BodyText(events[OpenScript(events).value + 1..])
    decreases |events|
  {
    if events != [] {
      var last := |events| - 1;
      var init := events[..last];
      var e := events[last];
      assert events == init + [e];
      RunMatchesExpected(init);
      var s := Run(Initial, init);
      var t := Step(s, e);
      assert Run(Initial, events) == t;
      if !IsScriptTag(e) {
        StepOutsideScriptTags(s, e);
        TracksContent(init, e, s, t);
      } else if IsInlineStart(e) {
        StepInlineStart(s, e);
        TracksInlineStart(init, e, s, t);
      } else if IsScriptStart(e) {
        StepSrcStart(s, e);
        TracksSrcStart(init, e, s, t);
      } else {
        StepScriptEnd(s, e);
        TracksEnd(init, e, s, t);
      }
    }
  }

  lemma OpenScriptSnoc(init: seq<Event>, e: Event)
    ensures OpenScript(init + [e]) ==
      if IsInlineStart(e) then Some(|init|) else if IsScriptTag(e) then None else OpenScript(init)
  {
    assert (init + [e])[..|init|] == init;
  }

  lemma ExpectedSnoc(init: seq<Event>, e: Event)
    ensures Expected(init + [e]) ==
      if IsScriptEnd(e) && OpenScript(init).Some? then Expected(init) + [BodyText(init[OpenScript(init).value + 1..])]
      else Expected(init)
  {
    assert (init + [e])[..|init|] == init;
  }

  lemma BodyTextSnoc(body: seq<Event>, e: Event)
    ensures BodyText(body + [e]) == BodyText(body) + Piece(e)
  {
    assert (body + [e])[..|body|] == body;
  }

  /** A content event keeps `Tracks`: the buffer grows by its piece exactly
      when an inline script is open. */
  lemma TracksContent(init: seq<Event>, e: Event, s: State, t: State)
    requires Tracks(init, s) && !IsScriptTag(e)
    requires t.collect == s.collect && t.hasSrc == s.hasSrc && t.scripts == s.scripts
    requires Concat(t.buffer) == if s.collect && !s.hasSrc then Concat(s.buffer) + Piece(e) else Concat(s.buffer)
    ensures Tracks(init + [e], t)
  {
    OpenScriptSnoc(init, e);
    ExpectedSnoc(init, e);
    var open := OpenScript(init);
    if open.Some? {
      ContentInsideScript(init, e, open.value, s, t);
    } else {
      assert !t.collect;
    }
  }

  lemma ContentInsideScript(init: seq<Event>, e: Event, m: nat, s: State, t: State)
    requires m < |init|
    requires Concat(s.buffer) == BodyText(init[m + 1..])
    requires Concat(t.buffer) == Concat(s.buffer) + Piece(e)
    ensures Concat(t.buffer) == BodyText((init + [e])[m + 1..])
  {
    assert (init + [e])[m + 1..] == init[m + 1..] + [e];
    BodyTextSnoc(init[m + 1..], e);
  }

  /** An inline start tag keeps `Tracks`: it opens a script with an empty body. */
  lemma TracksInlineStart(init: seq<Event>, e: Event, s: State, t: State)
    requires Tracks(init, s) && IsInlineStart(e)
    requires t == State(true, false, [], s.scripts)
    ensures Tracks(init + [e], t)
  {
    OpenScriptSnoc(init, e);
    ExpectedSnoc(init, e);
    EmptyAfterLast(init, e);
  }

  lemma EmptyAfterLast(init: seq<Event>, e: Event)
    ensures BodyText((init + [e])[|init| + 1..]) == ""
  {
    assert (init + [e])[|init| + 1..] == [];
  }

  /** A start tag with `src` keeps `Tracks`: no script is open afterwards. */
  lemma TracksSrcStart(init: seq<Event>, e: Event, s: State, t: State)
    requires Tracks(init, s) && IsScriptStart(e) && HasSrc(e.attrs)
    requires t == State(false, true, s.buffer, s.scripts)
    ensures Tracks(init + [e], t)
  {
    OpenScriptSnoc(init, e);
    ExpectedSnoc(init, e);
  }

  /** A script end tag keeps `Tracks`: it emits the open script's body, if any. */
  lemma TracksEnd(init: seq<Event>, e: Event, s: State, t: State)
    requires Tracks(init, s) && IsScriptEnd(e)
    requires t == State(false, false, [], if s.collect && !s.hasSrc then s.scripts + [Concat(s.buffer)] else s.scripts)
    ensures Tracks(init + [e], t)
  {
    OpenScriptSnoc(init, e);
    ExpectedSnoc(init, e);
  }

  lemma StepInlineStart(s: State, e: Event)
    requires IsInlineStart(e)
    ensures Step(s, e) == State(true, false, [], s.scripts)
  {
  }

  lemma StepSrcStart(s: State, e: Event)
    requires IsScriptStart(e) && HasSrc(e.attrs)
    ensures Step(s, e) == State(false, true, s.buffer, s.scripts)
  {
  }

  lemma StepScriptEnd(s: State, e: Event)
    requires IsScriptEnd(e)
    ensures Step(s, e) ==
      State(false, false, [], if s.collect && !s.hasSrc then s.scripts + [Concat(s.buffer)] else s.scripts)
  {
  }

  /** `scripts` only grows: earlier entries stay as they were, and each
      script end tag adds at most one entry. */
  lemma {:induction false} ScriptsOnlyGrow(s: State, events: seq<Event>)
    ensures s.scripts <= Run(s, events).scripts
    ensures |Run(s, events).scripts| <= |s.scripts| + ScriptEnds(events)
    decreases |events|
  {
    if events != [] {
      ScriptsOnlyGrow(s, events[..|events| - 1]);
    }
  }

  /** Once the collector is not collecting, it adds no script and buffers no
      text until the next script start tag: the buffer stays as it was or is
      emptied by a script end tag. */
  lemma {:induction false} IdleUntilNextStart(s: State, events: seq<Event>)
    requires !s.collect
    requires forall k :: 0 <= k < |events| ==> !IsScriptStart(events[k])
    ensures !Run(s, events).collect
    ensures Run(s, events).scripts == s.scripts
    ensures Run(s, events).buffer == s.buffer || Run(s, events).buffer == []
    decreases |events|
  {
    if events != [] {
      IdleUntilNextStart(s, events[..|events| - 1]);
    }
  }

  /** A script element with a `src` attribute never contributes an entry to
      `scripts`, whatever follows it up to the next script start tag. */
  lemma SrcScriptContributesNothing(s: State, tag: string, attrs: seq<Attribute>, rest: seq<Event>)
    requires IsScriptName(tag) && HasSrc(attrs)
    requires forall k :: 0 <= k < |rest| ==> !IsScriptStart(rest[k])
    ensures Run(s, [StartTag(tag, attrs)] + rest).scripts == s.scripts
  {
    var start := StartTag(tag, attrs);
    RunAppend(s, [start], rest);
    assert Run(s, [start]) == Step(Run(s, []), start);
    IdleUntilNextStart(Step(s, start), rest);
  }

  /** An event that is not a script tag keeps the flags and `scripts`, and
      adds its piece to the buffer's text exactly when an inline script is open. */
  lemma StepOutsideScriptTags(s: State, e: Event)
    requires !IsScriptTag(e)
    ensures Step(s, e).collect == s.collect && Step(s, e).hasSrc == s.hasSrc
    ensures Step(s, e).scripts == s.scripts
    ensures Concat(Step(s, e).buffer) ==
      if s.collect && !s.hasSrc then Concat(s.buffer) + Piece(e) else Concat(s.buffer)
  {
    if s.collect && !s.hasSrc && !e.StartTag? && !e.EndTag? {
      ConcatAppend(s.buffer, Piece(e));
    }
  }

  /** Inside an open inline script, events other than script tags only add
      their pieces to the buffer. */
  lemma {:induction false} CollectBody(s: State, body: seq<Event>)
    requires s.collect && !s.hasSrc
    requires forall k :: 0 <= k < |body| ==> !IsScriptTag(body[k])
    ensures Run(s, body).collect && !Run(s, body).hasSrc
    ensures Run(s, body).scripts == s.scripts
    ensures Concat(Run(s, body).buffer) == Concat(s.buffer) + BodyText(body)
    decreases |body|
  {
    if body != [] {
      var init := body[..|body| - 1];
      var e := body[|body| - 1];
      assert body == init + [e];
      assert forall k :: 0 <= k < |init| ==> init[k] == body[k];
      CollectBody(s, init);
      RunSnoc(s, init, e);
      CollectStep(s, Run(s, init), init, e);
    }
  }

  /** One step of `CollectBody`: a further content event adds its piece. */
  lemma CollectStep(s: State, before: State, init: seq<Event>, e: Event)
    requires !IsScriptTag(e)
    requires before.collect && !before.hasSrc && before.scripts == s.scripts
    requires Concat(before.buffer) == Concat(s.buffer) + BodyText(init)
    ensures Step(before, e).collect && !Step(before, e).hasSrc
    ensures Step(before, e).scripts == s.scripts
    ensures Concat(Step(before, e).buffer) == Concat(s.buffer) + BodyText(init + [e])
  {
    BodyTextSnoc(init, e);
    StepOutsideScriptTags(before, e);
    Assoc(Concat(s.buffer), BodyText(init), Piece(e));
  }

  /** An inline script element, from its start tag to its end tag, appends
      exactly its body text to `scripts` and leaves the collector idle with
      an empty buffer. This holds from any state: text buffered before the
      start tag, even by an unclosed earlier inline script, is discarded. */
  lemma InlineScriptEmitsBody(s: State, tag: string, attrs: seq<Attribute>, body: seq<Event>, endTag: string)
    requires IsScriptName(tag) && !HasSrc(attrs) && IsScriptName(endTag)
    requires forall k :: 0 <= k < |body| ==> !IsScriptTag(body[k])
    ensures Run(s, [StartTag(tag, attrs)] + body + [EndTag(endTag)]) ==
      State(false, false, [], s.scripts + [BodyText(body)])
  {
    var start, stop := StartTag(tag, attrs), EndTag(endTag);
    var inside := State(true, false, [], s.scripts);
    assert Run(s, [start]) == inside by {
      StepInlineStart(s, start);
      RunSnoc(s, [], start);
      assert [] + [start] == [start];
    }
    var filled := Run(inside, body);
    assert Run(s, [start] + body) == filled by {
      RunAppend(s, [start], body);
    }
    CollectBody(inside, body);
    assert Concat(filled.buffer) == BodyText(body);
    assert Run(s, [start] + body + [stop]) == Step(filled, stop) by {
      RunSnoc(s, [start] + body, stop);
    }
    StepScriptEnd(filled, stop);
  }

  // ---------------------------------------------------------------------
  // The collector as an object whose handlers update its fields
  // ---------------------------------------------------------------------

  class ScriptExtractor {
    var collect: bool
    var hasSrc: bool
    var buffer: seq<string>
    var scripts: seq<string>

    ghost predicate Valid()
      reads this
    {
      Consistent(Snapshot())
    }

    /** The handlers' fields as a `State` value. */
    function Snapshot(): State
      reads this
    {
      State(collect, hasSrc, buffer, scripts)
    }

    constructor ()
      ensures Valid()
      ensures !collect && !hasSrc && buffer == [] && scripts == []
    {
      collect := false;
      hasSrc := false;
      buffer := [];
      scripts := [];
    }

    method HandleStartTag(tag: string, attrs: seq<Attribute>)
      requires Valid()
      modifies this
      ensures Valid()
      ensures !IsScriptName(tag) ==> unchanged(this)
      ensures IsScriptName(tag) && HasSrc(attrs) ==>
        hasSrc && !collect && buffer == old(buffer) && scripts == old(scripts)
      ensures IsScriptName(tag) && !HasSrc(attrs) ==>
        !hasSrc && collect && buffer == [] && scripts == old(scripts)
    {
      IsScriptNameLower(tag);
      if AsciiLower(tag) == "script" {
        if HasSrc(attrs) {
          hasSrc := true;
          collect := false;
        } else {
          hasSrc := false;
          collect := true;
          buffer := [];
        }
      }
    }

    method HandleEndTag(tag: string)
      requires Valid()
      modifies this
      ensures Valid()
      ensures !IsScriptName(tag) ==> unchanged(this)
      ensures IsScriptName(tag) ==> !collect && !hasSrc && buffer == []
      ensures IsScriptName(tag) ==>
        scripts == (if old(collect && !hasSrc) then old(scripts) + [Concat(old(buffer))] else old(scripts))
    {
      IsScriptNameLower(tag);
      if AsciiLower(tag) == "script" {
        if collect && !hasSrc {
          var content := Concat(buffer);
          scripts := scripts + [content];
        }
        collect := false;
        hasSrc := false;
        buffer := [];
      }
    }

    /** Appends one fragment to the buffer of an open inline script. */
    method Append(fragment: string)
      requires Valid()
      modifies this
      ensures Valid()
      ensures collect == old(collect) && hasSrc == old(hasSrc) && scripts == old(scripts)
      ensures buffer == if old(collect && !hasSrc) then old(buffer) + [fragment] else old(buffer)
    {
      if collect && !hasSrc {
        buffer := buffer + [fragment];
      }
    }

    method HandleData(data: string)
      requires Valid()
      modifies this
      ensures Valid()
      ensures collect == old(collect) && hasSrc == old(hasSrc) && scripts == old(scripts)
      ensures buffer == if old(collect && !hasSrc) then old(buffer) + [data] else old(buffer)
    {
      Append(data);
    }

    method HandleComment(data: string)
      requires Valid()
      modifies this
      ensures Valid()
      ensures collect == old(collect) && hasSrc == old(hasSrc) && scripts == old(scripts)
      ensures buffer == if old(collect && !hasSrc) then old(buffer) + ["<!--" + data + "-->"] else old(buffer)
    {
      Append("<!--" + data + "-->");
    }

    method HandleEntityRef(name: string)
      requires Valid()
      modifies this
      ensures Valid()
      ensures collect == old(collect) && hasSrc == old(hasSrc) && scripts == old(scripts)
      ensures buffer == if old(collect && !hasSrc) then old(buffer) + ["&" + name + ";"] else old(buffer)
    {
      Append("&" + name + ";");
    }

    method HandleCharRef(name: string)
      requires Valid()
      modifies this
      ensures Valid()
      ensures collect == old(collect) && hasSrc == old(hasSrc) && scripts == old(scripts)
      ensures buffer == if old(collect && !hasSrc) then old(buffer) + ["&#" + name + ";"] else old(buffer)
    {
      Append("&#" + name + ";");
    }

    /** Calls the handler for one event, as the tokenizer does. */
    method Dispatch(e: Event)
      requires Valid()
      modifies this
      ensures Valid()
      ensures Snapshot() == Step(old(Snapshot()), e)
    {
      match e
      case StartTag(tag, attrs) => HandleStartTag(tag, attrs);
      case EndTag(tag) => HandleEndTag(tag);
      case Data(d) => HandleData(d);
      case Comment(d) => HandleComment(d);
      case EntityRef(n) => HandleEntityRef(n);
      case CharRef(n) => HandleCharRef(n);
    }

    /** `feed`: the tokenizer's events, handled one after the other. */
    method Feed(events: seq<Event>)
      requires Valid()
      modifies this
      ensures Valid()
      ensures Snapshot() == Run(old(Snapshot()), events)
    {
      var i := 0;
      while i < |events|
        invariant 0 <= i <= |events|
        invariant Valid()
        invariant Snapshot() == Run(old(Snapshot()), events[..i])
      {
        RunSnoc(old(Snapshot()), events[..i], events[i]);
        assert events[..i + 1] == events[..i] + [events[i]];
        Dispatch(events[i]);
        i := i + 1;
      }
      assert events[..i] == events;
    }
  }

  /** A fresh collector fed a whole page: the scripts it collects are
      exactly the page's inline script bodies, in order. */
  method ExtractScripts(events: seq<Event>) returns (scripts: seq<string>)
    ensures scripts == Expected(events)
  {
    var parser := new ScriptExtractor();
    parser.Feed(events);
    RunMatchesExpected(events);
    scripts := parser.scripts;
  }
}
