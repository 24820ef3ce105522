/**
 The handles an encoder gets from the FFmpeg libraries, and the library's books about them:
 what was allocated, what is live, what was released.
 */
module Handles {

  datatype Option<T> = None | Some(value: T)

  datatype Kind = FormatContext | CodecContext | PictureFrame | Scaler | Output

  datatype Handle = Handle(kind: Kind, id: nat)

  datatype Books = Books(given: seq<Handle>, live: set<Handle>, released: seq<Handle>)

  /** Handles are numbered as they are allocated. */
  ghost predicate Numbered(hs: seq<Handle>) {
    forall i | 0 <= i < |hs| :: hs[i].id == i
  }

  /** Everything allocated is live, or was released, and never both or twice. */
  ghost predicate Sound(b: Books) {
    && Numbered(b.given)
    && multiset(b.given) == multiset(b.live) + multiset(b.released)
  }

  function Allocate(b: Books, kind: Kind): Books {
    var h := Handle(kind, |b.given|);
    b.(given := b.given + [h], live := b.live + {h})
  }

  function Release(b: Books, h: Handle): Books
    requires h in b.live
  {
    b.(live := b.live - {h}, released := b.released + [h])
  }

  lemma LiveIsOld(b: Books, h: Handle)
    requires Sound(b) && h in b.live
    ensures h.id < |b.given|
  {
    assert h in multiset(b.given);
    assert h in b.given;
  }

  lemma AllocateSound(b: Books, kind: Kind)
    requires Sound(b)
    ensures Sound(Allocate(b, kind)) && Handle(kind, |b.given|) !in b.live
  {
    var h := Handle(kind, |b.given|);
    if h in b.live {
      LiveIsOld(b, h);
    }
    assert multiset(b.live + {h}) == multiset(b.live) + multiset{h};
  }

  lemma ReleaseSound(b: Books, h: Handle)
    requires Sound(b) && h in b.live
    ensures Sound(Release(b, h))
  {
    assert multiset(b.live) == multiset(b.live - {h}) + multiset{h};
  }

  lemma {:induction false} NumberedOnce(hs: seq<Handle>, h: Handle)
    requires Numbered(hs) && h in hs
    ensures multiset(hs)[h] == 1
  {
    var n := |hs| - 1;
    assert hs == hs[..n] + [hs[n]];
    if h in hs[..n] {
      NumberedOnce(hs[..n], h);
    }
  }

  /** Nothing is released twice, and nothing released is live. */
  lemma ReleasedAtMostOnce(b: Books, h: Handle)
    requires Sound(b)
    ensures multiset(b.released)[h] <= 1
    ensures h in b.released ==> h !in b.live
  {
    assert multiset(b.given)[h] == multiset(b.live)[h] + multiset(b.released)[h];
    if h in b.given {
      NumberedOnce(b.given, h);
    } else {
      assert h !in multiset(b.given);
    }
  }

  /** When nothing is live, every handle ever allocated was released exactly once. */
  lemma Settled(b: Books, h: Handle)
    requires Sound(b) && b.live == {}
    ensures multiset(b.released)[h] == if h in b.given then 1 else 0
  {
    assert multiset(b.given)[h] == multiset(b.released)[h];
    if h in b.given {
      NumberedOnce(b.given, h);
    } else {
      assert h !in multiset(b.given);
    }
  }

  type SoundBooks = b: Books | Sound(b) ghost witness NothingYet()

  ghost function NothingYet(): (b: Books)
    ensures Sound(b)
  {
    Books([], {}, [])
  }

  class Library {
    var books: SoundBooks

    constructor ()
      ensures books == Books([], {}, [])
    {
      books := Books([], {}, []);
    }

    /** An allocating call: it returns null when it fails. */
    method New(kind: Kind, fails: bool) returns (h: Option<Handle>)
      modifies this
      ensures fails ==> h == None && books == old(books)
      ensures !fails ==> h.Some? && h.value.kind == kind && h.value !in old(books.live)
      ensures !fails ==> books.live == old(books.live) + {h.value}
    {
      if fails {
        return None;
      }
      AllocateSound(books, kind);
      h := Some(Handle(kind, |books.given|));
      books := Allocate(books, kind);
    }

    /** A freeing call.  Its precondition is that the handle is live. */
    method Free(h: Handle)
      requires h in books.live
      modifies this
      ensures books.live == old(books.live) - {h}
    {
      ReleaseSound(books, h);
      books := Release(books, h);
    }
  }
}

/** The part of `Open` that both encoder classes have, up to opening the output. */
module EncoderSetup {
  import opened Handles

  /** The calls of `Open` that can fail, in their order. */
  datatype Stage =
    | AllocFormat | FindCodec | NewStream | AllocCodec | SetPreset | SetCrf | OpenCodec
    | AllocFrame | FrameBuffer | CopyParameters | GetScaler | OpenOutput | WriteHeader

  const CALLS: nat := 13

  /** How many of the calls succeed before the first that fails; the preset is set only when there is one. */
  function Passed(preset: bool, failing: set<Stage>): nat {
    if AllocFormat in failing then 0
    else if FindCodec in failing then 1
    else if NewStream in failing then 2
    else if AllocCodec in failing then 3
    else if preset && SetPreset in failing then 4
    else if SetCrf in failing then 5
    else if OpenCodec in failing then 6
    else if AllocFrame in failing then 7
    else if FrameBuffer in failing then 8
    else if CopyParameters in failing then 9
    else if GetScaler in failing then 10
    else if OpenOutput in failing then 11
    else if WriteHeader in failing then 12
    else CALLS
  }

  /** The call is made when its turn comes, and fails. */
  predicate Breaks(s: Stage, preset: bool, failing: set<Stage>) {
    s in failing && (s.SetPreset? ==> preset)
  }

  lemma PassedIsFirst(preset: bool, failing: set<Stage>)
    ensures var n := Passed(preset, failing);
            var order := [AllocFormat, FindCodec, NewStream, AllocCodec, SetPreset, SetCrf, OpenCodec,
                          AllocFrame, FrameBuffer, CopyParameters, GetScaler, OpenOutput, WriteHeader];
            && n <= |order| == CALLS
            && (forall k | 0 <= k < n :: !Breaks(order[k], preset, failing))
            && (n < |order| ==> Breaks(order[n], preset, failing))
  {
  }

  /** The struct `mContext`, with the `pb` of its format context. */
  datatype Context = Context(
    format: Option<Handle>,
    codecContext: Option<Handle>,
    frame: Option<Handle>,
    scaler: Option<Handle>,
    pb: Option<Handle>
  )

  const EMPTY_CONTEXT: Context := Context(None, None, None, None, None)

  function Held(h: Option<Handle>): set<Handle> {
    if h.Some? then {h.value} else {}
  }

  /** The handles the non-null fields hold. */
  function Owned(c: Context): set<Handle> {
    Held(c.format) + Held(c.codecContext) + Held(c.frame) + Held(c.scaler) + Held(c.pb)
  }

  predicate IsKind(h: Option<Handle>, kind: Kind) {
    h.Some? ==> h.value.kind == kind
  }

  /** Each field holds a handle of its own kind, so no two fields hold the same one. */
  predicate WellKinded(c: Context) {
    && IsKind(c.format, FormatContext) && IsKind(c.codecContext, CodecContext)
    && IsKind(c.frame, PictureFrame) && IsKind(c.scaler, Scaler) && IsKind(c.pb, Output)
  }

  predicate Complete(c: Context) {
    c.format.Some? && c.codecContext.Some? && c.frame.Some? && c.scaler.Some? && c.pb.Some?
  }

  lemma OutputIsAlone(c: Context)
    requires WellKinded(c) && c.pb.Some?
    ensures Owned(c.(pb := None)) == Owned(c) - {c.pb.value}
    ensures WellKinded(c.(pb := None)) && c.pb.value in Owned(c)
  {
  }

  /** The handles a struct holds after that many calls have succeeded. */
  predicate AcquiredBy(c: Context, calls: nat) {
    && (c.format.Some? <==> calls > 0)
    && (c.codecContext.Some? <==> calls > 3)
    && (c.frame.Some? <==> calls > 7)
    && (c.scaler.Some? <==> calls > 10)
    && (c.pb.Some? <==> calls > 11)
  }

  /** Which calls must not fail for a field to be filled, and for all to succeed. */
  lemma AcquiredIff(c: Context, preset: bool, failing: set<Stage>)
    requires AcquiredBy(c, Passed(preset, failing))
    ensures c.format.Some? <==> AllocFormat !in failing
    ensures c.codecContext.Some? <==> c.format.Some? && failing !! {FindCodec, NewStream, AllocCodec}
    ensures c.frame.Some? <==>
            c.codecContext.Some? && !(preset && SetPreset in failing) && failing !! {SetCrf, OpenCodec, AllocFrame}
    ensures c.scaler.Some? <==> c.frame.Some? && failing !! {FrameBuffer, CopyParameters, GetScaler}
    ensures c.pb.Some? <==> c.scaler.Some? && OpenOutput !in failing
    ensures Passed(preset, failing) == CALLS <==> c.pb.Some? && WriteHeader !in failing
  {
  }

  /**
   A struct of which the fields of the first `calls + 1` calls were assigned: the one whose
   call failed is null, those behind it keep what they held.
   */
  function Overwritten(previous: Context, acquired: Context, calls: nat): Context {
    Context(
      acquired.format,
      if calls >= 3 then acquired.codecContext else previous.codecContext,
      if calls >= 7 then acquired.frame else previous.frame,
      if calls >= 10 then acquired.scaler else previous.scaler,
      acquired.pb)
  }

  /** From the format context to the opened output; stops at the first call that fails. */
  method Prepare(library: Library, preset: bool, failing: set<Stage>) returns (context: Context, ok: bool)
    modifies library
    ensures WellKinded(context)
    ensures library.books.live == old(library.books.live) + Owned(context)
    ensures old(library.books.live) !! Owned(context)
    ensures old(library.books.live) == {} ==> library.books.live == Owned(context)
    ensures AcquiredBy(context, Passed(preset, failing))
    ensures ok <==> Passed(preset, failing) > 11
  {
    context, ok := EMPTY_CONTEXT, false;
    var h := library.New(FormatContext, AllocFormat in failing);
    context := context.(format := h);
    if h.None? { return; }
    if FindCodec in failing { return; }
    if NewStream in failing { return; }
    h := library.New(CodecContext, AllocCodec in failing);
    context := context.(codecContext := h);
    if h.None? { return; }
    if preset {
      if SetPreset in failing { return; }
    }
    if SetCrf in failing { return; }
    if OpenCodec in failing { return; }
    h := library.New(PictureFrame, AllocFrame in failing);
    context := context.(frame := h);
    if h.None? { return; }
    if FrameBuffer in failing { return; }
    if CopyParameters in failing { return; }
    h := library.New(Scaler, GetScaler in failing);
    context := context.(scaler := h);
    if h.None? { return; }
    h := library.New(Output, OpenOutput in failing);
    context := context.(pb := h);
    ok := h.Some?;
  }

  /** Closes the output and forgets it. */
  method CloseOutput(library: Library, context: Context) returns (c: Context)
    requires WellKinded(context) && context.pb.Some?
    requires library.books.live == Owned(context)
    modifies library
    ensures c == context.(pb := None) && WellKinded(c)
    ensures library.books.live == Owned(c)
  {
    OutputIsAlone(context);
    library.Free(context.pb.value);
    c := context.(pb := None);
  }

  /** The frees both `Close` methods make. */
  method FreeContext(library: Library, context: Context)
    requires WellKinded(context) && context.pb == None
    requires Owned(context) <= library.books.live
    modifies library
    ensures library.books.live == old(library.books.live) - Owned(context)
    ensures old(library.books.live) == Owned(context) ==> library.books.live == {}
  {
    if context.scaler.Some? {
      library.Free(context.scaler.value);
    }
    if context.frame.Some? {
      library.Free(context.frame.value);
    }
    if context.codecContext.Some? {
      library.Free(context.codecContext.value);
    }
    if context.format.Some? {
      library.Free(context.format.value);
    }
  }

  /** Closes the output and frees the rest; `kept` are the other live handles. */
  method ReleaseContext(library: Library, context: Context, ghost kept: set<Handle>)
    requires WellKinded(context) && context.pb.Some?
    requires library.books.live == kept + Owned(context) && kept !! Owned(context)
    modifies library
    ensures library.books.live == kept
  {
    OutputIsAlone(context);
    library.Free(context.pb.value);
    assert library.books.live == kept + Owned(context.(pb := None));
    FreeContext(library, context.(pb := None));
  }
}
