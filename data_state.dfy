/** The state value a view can be put in: `ViewDataState`, its `Info` payload,
    its `id` string and the `==` built on it. */
module DataState {
  import opened Wrappers
  import opened Decimal

  /** An opaque callback closure. Only its presence and identity are modelled,
      never what it does when invoked. */
  datatype Callback = Callback(token: nat)

  /** The optional message a state carries. Its memberwise initialiser,
      `init(title:subTitle:)`, is the datatype constructor itself. */
  datatype Info = Info(title: Option<string>, subTitle: Option<string>)

  /** `Info` from a string literal (and from the unicode-scalar,
      grapheme-cluster and interpolated forms, which do the same): title only. */
  function InfoOfStringLiteral(value: string): (r: Info)
    ensures r.title == Some(value)
    ensures r.subTitle == None
  {
    Info(Some(value), None)
  }

  /** `Info` from an array literal: the first element is the title, the second
      the subtitle, and any further elements are ignored. */
  function InfoOfArrayLiteral(elements: seq<string>): (r: Info)
    ensures r.title.None? <==> |elements| == 0
    ensures 0 < |elements| ==> r.title == Some(elements[0])
    ensures r.subTitle.Some? <==> 2 <= |elements|
    ensures 2 <= |elements| ==> r.subTitle == Some(elements[1])
  {
    var title := if |elements| == 0 then None else Some(elements[0]);
    if |elements| > 1 then Info(title, Some(elements[1])) else Info(title, None)
  }

  /** `Info` from the `nil` literal: no title, no subtitle. */
  function InfoOfNilLiteral(): (r: Info)
    ensures r.title == None && r.subTitle == None
  {
    Info(None, None)
  }

  /** The array literal that denotes `info`: a reference for the literal
      constructors above. */
  function ElementsOf(info: Info): (e: seq<string>)
    ensures |e| <= 2
  {
    match (info.title, info.subTitle)
    case (None, _) => []
    case (Some(t), None) => [t]
    case (Some(t), Some(u)) => [t, u]
  }

  /** Every `Info` that an array literal can denote is recovered from its
      elements; the one it cannot denote has a subtitle without a title. */
  lemma ArrayLiteralRoundTrip(info: Info)
    ensures InfoOfArrayLiteral(ElementsOf(info)) == info <==> (info.title.Some? || info.subTitle.None?)
  {
  }

  /** An array literal keeps exactly its first two elements. */
  lemma ArrayLiteralKeepsFirstTwo(elements: seq<string>)
    ensures ElementsOf(InfoOfArrayLiteral(elements)) == elements[..if |elements| < 2 then |elements| else 2]
  {
  }

  /** The string and nil literals agree with the one- and zero-element array literals. */
  lemma LiteralsAgree(value: string)
    ensures InfoOfStringLiteral(value) == InfoOfArrayLiteral([value])
    ensures InfoOfNilLiteral() == InfoOfArrayLiteral([])
  {
  }

  /** The four states (`NoneState` is Swift's `.none`). The last three
      carry an `Info` and an optional callback. */
  datatype ViewDataState =
    | NoneState
    | Loading(info: Info, callback: Option<Callback>)
    | Empty(info: Info, callback: Option<Callback>)
    | Error(info: Info, callback: Option<Callback>)

  /** The static shortcuts `.loading`, `.empty` and `.error`: nil info, no callback. */
  const LoadingShortcut: ViewDataState := Loading(InfoOfNilLiteral(), None)
  const EmptyShortcut: ViewDataState := Empty(InfoOfNilLiteral(), None)
  const ErrorShortcut: ViewDataState := Error(InfoOfNilLiteral(), None)

  /** The 0/1 flag for whether a callback is present. */
  function PresenceFlag(callback: Option<Callback>): (f: string)
    ensures |f| == 1
    ensures f == "1" <==> callback.Some?
  {
    if callback.None? then "0" else "1"
  }

  /** The `id` of a state. `hash` is the process's `Info.hashValue`: any
      function, seeded per process and not assumed injective. */
  function Id(s: ViewDataState, hash: Info -> int): string {
    match s
    case NoneState => "none"
    case Loading(message, callback) => "loading-" + IntToString(hash(message)) + "-" + PresenceFlag(callback)
    case Empty(message, callback) => "empty-" + IntToString(hash(message)) + "-" + PresenceFlag(callback)
    case Error(message, callback) => "error-" + IntToString(hash(message)) + "-" + PresenceFlag(callback)
  }

  /** Whether two states are the same case of the union. */
  predicate SameCase(a: ViewDataState, b: ViewDataState) {
    a.NoneState? == b.NoneState? && a.Loading? == b.Loading? && a.Empty? == b.Empty? && a.Error? == b.Error?
  }

  /** `==` on states: their ids are equal. */
  function Equal(a: ViewDataState, b: ViewDataState, hash: Info -> int): bool {
    Id(a, hash) == Id(b, hash)
  }

  /** When `p + x + "-" + f == p + y + "-" + g` with one-character flags, the
      middle parts and the flags agree. */
  lemma SplitId(p: string, x: string, y: string, f: string, g: string)
    requires |f| == 1 && |g| == 1
    requires p + x + "-" + f == p + y + "-" + g
    ensures x == y && f == g
  {
    var s := p + x + "-" + f;
    assert |x| == |y|;
    assert f == s[|s| - 1..] == g;
    assert x == s[|p|..|p| + |x|] == y;
  }

  /** Two ids are equal exactly when the states are the same case and, unless
      both are `none`, their infos hash alike and both or neither carry a callback.
      What the callbacks are is never compared. */
  lemma IdsEqualIff(a: ViewDataState, b: ViewDataState, hash: Info -> int)
    ensures Id(a, hash) == Id(b, hash) <==>
            SameCase(a, b) && (a.NoneState? || (hash(a.info) == hash(b.info) && a.callback.Some? == b.callback.Some?))
  {
    if Id(a, hash) == Id(b, hash) {
      if !SameCase(a, b) {
        DistinctCasesDistinctIds(a, b, hash);
      }
      if !a.NoneState? {
        var p := if a.Loading? then "loading-" else if a.Empty? then "empty-" else "error-";
        SplitId(p, IntToString(hash(a.info)), IntToString(hash(b.info)), PresenceFlag(a.callback), PresenceFlag(b.callback));
        IntToStringInjective(hash(a.info), hash(b.info));
      }
    }
  }

  /** States of different cases never share an id: the tags differ in their
      first or second character, and only `none` has no '-'. */
  lemma DistinctCasesDistinctIds(a: ViewDataState, b: ViewDataState, hash: Info -> int)
    requires !SameCase(a, b)
    ensures Id(a, hash) != Id(b, hash)
  {
    var x, y := Id(a, hash), Id(b, hash);
    assert x[0] == (if a.NoneState? then 'n' else if a.Loading? then 'l' else 'e');
    assert y[0] == (if b.NoneState? then 'n' else if b.Loading? then 'l' else 'e');
    if a.Empty? || a.Error? {
      assert x[1] == (if a.Empty? then 'm' else 'r');
    }
    if b.Empty? || b.Error? {
      assert y[1] == (if b.Empty? then 'm' else 'r');
    }
  }

  /** The id of `none` is "none", and no other state has it. */
  lemma IdOfNone(s: ViewDataState, hash: Info -> int)
    ensures Id(NoneState, hash) == "none"
    ensures Id(s, hash) == "none" <==> s.NoneState?
  {
  }

  /** Replacing the callback by another one, with the same info and the same
      presence, leaves the id unchanged. */
  lemma IdIgnoresCallbackIdentity(a: ViewDataState, b: ViewDataState, hash: Info -> int)
    requires SameCase(a, b) && !a.NoneState?
    requires a.info == b.info && a.callback.Some? == b.callback.Some?
    ensures Id(a, hash) == Id(b, hash)
  {
  }

  /** `==` is an equivalence relation, and equal states are the same case. */
  lemma EqualIsEquivalence(a: ViewDataState, b: ViewDataState, c: ViewDataState, hash: Info -> int)
    ensures Equal(a, a, hash)
    ensures Equal(a, b, hash) == Equal(b, a, hash)
    ensures Equal(a, b, hash) && Equal(b, c, hash) ==> Equal(a, c, hash)
    ensures Equal(a, b, hash) ==> SameCase(a, b)
  {
    if Equal(a, b, hash) {
      IdsEqualIff(a, b, hash);
    }
  }

  /** `s == .none` holds exactly for `none`. */
  lemma EqualNoneIffNone(s: ViewDataState, hash: Info -> int)
    ensures Equal(s, NoneState, hash) <==> s.NoneState?
  {
  }

  /** The three shortcuts differ from each other and from `none`. */
  lemma ShortcutsDistinct(hash: Info -> int)
    ensures !Equal(LoadingShortcut, EmptyShortcut, hash)
    ensures !Equal(LoadingShortcut, ErrorShortcut, hash)
    ensures !Equal(EmptyShortcut, ErrorShortcut, hash)
    ensures !Equal(LoadingShortcut, NoneState, hash)
    ensures !Equal(EmptyShortcut, NoneState, hash)
    ensures !Equal(ErrorShortcut, NoneState, hash)
  {
    DistinctCasesDistinctIds(LoadingShortcut, EmptyShortcut, hash);
    DistinctCasesDistinctIds(LoadingShortcut, ErrorShortcut, hash);
    DistinctCasesDistinctIds(EmptyShortcut, ErrorShortcut, hash);
    DistinctCasesDistinctIds(LoadingShortcut, NoneState, hash);
    DistinctCasesDistinctIds(EmptyShortcut, NoneState, hash);
    DistinctCasesDistinctIds(ErrorShortcut, NoneState, hash);
  }
}
