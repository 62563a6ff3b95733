/** Masking the credentials of every URL in a text, such as the tail of a tool's error output. */
module UrlMask {
  import opened Wrappers
  import opened Text
  import opened CameraUrl

  const SCHEME_END := "://"
  const MASK := "***@"

  // ------------------------------------------------------------------ searching

  /** The text has a "://" at the index. */
  predicate SchemeAt(s: string, i: nat) {
    i + 3 <= |s| && s[i] == ':' && s[i + 1] == '/' && s[i + 2] == '/'
  }

  /** The first "://" from an index on, or the length. */
  function FindScheme(s: string, from: nat): (i: nat)
    requires from <= |s|
    ensures from <= i <= |s| && (i < |s| ==> SchemeAt(s, i))
    ensures forall j :: from <= j < i ==> !SchemeAt(s, j)
    decreases |s| - from
  {
    if from == |s| || SchemeAt(s, from) then from else FindScheme(s, from + 1)
  }

  /** The first character that ends an authority from an index on, or the length. */
  function AuthorityEnd(s: string, from: nat): (i: nat)
    requires from <= |s|
    ensures from <= i <= |s| && (i < |s| ==> EndsAuthority(s[i]))
    ensures forall j :: from <= j < i ==> !EndsAuthority(s[j])
    decreases |s| - from
  {
    if from == |s| || EndsAuthority(s[from]) then from else AuthorityEnd(s, from + 1)
  }

  /** The last '@' of a stretch, if any. */
  function LastAt(s: string, lo: nat, hi: nat): (at: Option<nat>)
    requires lo <= hi <= |s|
    ensures at.Some? ==> lo <= at.value < hi && s[at.value] == '@' && (forall j :: at.value < j < hi ==> s[j] != '@')
    ensures at.None? ==> (forall j :: lo <= j < hi ==> s[j] != '@')
    decreases hi - lo
  {
    if lo == hi then None else if s[hi - 1] == '@' then Some(hi - 1) else LastAt(s, lo, hi - 1)
  }

  // ------------------------------------------------------------------ one step of the scan

  /** What the scan meets next: no URL, one guarded by a login that ends at `at`, or a bare one. */
  datatype Step = Plain | Guarded(scheme: nat, end: nat, at: nat) | Bare(scheme: nat, end: nat)

  predicate NoScheme(s: string, before: nat) {
    forall j :: 0 <= j < before ==> !SchemeAt(s, j)
  }

  predicate FirstScheme(s: string, i: nat) {
    SchemeAt(s, i) && NoScheme(s, i)
  }

  predicate AuthorityTo(s: string, from: nat, end: nat) {
    from <= end <= |s| && (end < |s| ==> EndsAuthority(s[end])) && forall j :: from <= j < end ==> !EndsAuthority(s[j])
  }

  predicate LastAtIs(s: string, from: nat, end: nat, at: nat) {
    from <= at < end <= |s| && s[at] == '@' && forall j :: at < j < end ==> s[j] != '@'
  }

  predicate NoAt(s: string, from: nat, end: nat) {
    end <= |s| && forall j :: from <= j < end ==> s[j] != '@'
  }

  predicate IsStep(s: string, st: Step) {
    match st
    case Plain => NoScheme(s, |s|)
    case Guarded(i, end, at) => FirstScheme(s, i) && AuthorityTo(s, i + 3, end) && LastAtIs(s, i + 3, end, at)
    case Bare(i, end) => FirstScheme(s, i) && AuthorityTo(s, i + 3, end) && NoAt(s, i + 3, end)
  }

  lemma StepBounds(s: string, st: Step)
    requires IsStep(s, st)
    ensures !st.Plain? ==> st.scheme + 3 <= st.end <= |s|
    ensures st.Guarded? ==> st.scheme + 3 <= st.at < st.end
  {
    hide EndsAuthority;
  }

  function StepOf(s: string): (st: Step)
    ensures IsStep(s, st)
  {
    var i := FindScheme(s, 0);
    if i == |s| then Plain
    else
      var end := AuthorityEnd(s, i + 3);
      match LastAt(s, i + 3, end)
      case Some(at) => Guarded(i, end, at)
      case None => Bare(i, end)
  }

  /** What a step writes, and what it leaves to scan. */
  function Written(s: string, st: Step): string
    requires IsStep(s, st)
  {
    match st
    case Plain => s
    case Guarded(i, _, _) => s[..i + 3] + MASK
    case Bare(_, end) => s[..end]
  }

  function Rest(s: string, st: Step): (rest: string)
    requires IsStep(s, st)
    ensures !st.Plain? ==> |rest| < |s|
  {
    match st
    case Plain => ""
    case Guarded(_, _, at) => s[at + 1..]
    case Bare(_, end) => s[end..]
  }

  function Mask(s: string): string
    decreases |s|
  {
    var st := StepOf(s);
    if st.Plain? then s else Written(s, st) + Mask(Rest(s, st))
  }

  /** A text has one step. */
  lemma StepIsUnique(s: string, st: Step)
    requires IsStep(s, st)
    ensures st == StepOf(s)
  {
    var it := StepOf(s);
    if !st.Plain? && !it.Plain? {
      hide EndsAuthority, FindScheme, AuthorityEnd, LastAt;
      assert st.scheme == it.scheme;
      assert st.end == it.end;
    }
  }

  lemma MaskBy(s: string, st: Step)
    requires IsStep(s, st)
    ensures Mask(s) == if st.Plain? then s else Written(s, st) + Mask(Rest(s, st))
  {
    hide IsStep, StepOf, Written, Rest;
    StepIsUnique(s, st);
  }

  lemma MaskGuarded(s: string, i: nat, end: nat, at: nat)
    requires IsStep(s, Guarded(i, end, at))
    ensures i + 3 <= at < end <= |s| && Mask(s) == s[..i + 3] + MASK + Mask(s[at + 1..])
  {
    hide *;
    StepBounds(s, Guarded(i, end, at));
    WrittenGuarded(s, i, end, at);
    MaskBy(s, Guarded(i, end, at));
  }

  lemma WrittenGuarded(s: string, i: nat, end: nat, at: nat)
    requires IsStep(s, Guarded(i, end, at)) && i + 3 <= |s| && at + 1 <= |s|
    ensures Written(s, Guarded(i, end, at)) == s[..i + 3] + MASK && Rest(s, Guarded(i, end, at)) == s[at + 1..]
  {
    hide IsStep;
  }

  lemma MaskBare(s: string, i: nat, end: nat)
    requires IsStep(s, Bare(i, end))
    ensures i + 3 <= end <= |s| && Mask(s) == s[..end] + Mask(s[end..])
  {
    hide *;
    StepBounds(s, Bare(i, end));
    WrittenBare(s, i, end);
    MaskBy(s, Bare(i, end));
  }

  lemma WrittenBare(s: string, i: nat, end: nat)
    requires IsStep(s, Bare(i, end)) && end <= |s|
    ensures Written(s, Bare(i, end)) == s[..end] && Rest(s, Bare(i, end)) == s[end..]
  {
    hide IsStep;
  }

  lemma PlainIsKept(s: string)
    requires IsStep(s, Plain)
    ensures Mask(s) == s
  {
    hide *;
    MaskBy(s, Plain);
  }

  method MaskUrl(url: string) returns (out: string)
    ensures out == Mask(url)
  {
    hide Mask, FindScheme, AuthorityEnd, LastAt;
    out := "";
    var rest := url;
    while true
      invariant out + Mask(rest) == Mask(url)
      decreases |rest|
    {
      var scheme := FindScheme(rest, 0);
      if scheme == |rest| {
        MaskBy(rest, Plain);
        out := out + rest;
        return;
      }
      var after := scheme + |SCHEME_END|;
      var end := AuthorityEnd(rest, after);
      var at := LastAt(rest, after, end);
      ghost var st := if at.Some? then Guarded(scheme, end, at.value) else Bare(scheme, end);
      MaskBy(rest, st);
      Associate(out, Written(rest, st), Mask(Rest(rest, st)));
      if at.Some? {
        Associate(out, rest[..after], MASK);
        out := out + rest[..after];
        out := out + MASK;
        rest := rest[at.value + 1..];
      } else {
        out := out + rest[..end];
        rest := rest[end..];
      }
    }
  }

  lemma Associate(a: string, b: string, c: string)
    ensures (a + b) + c == a + (b + c)
  {
  }

  // ------------------------------------------------------------------ idempotence

  /** A text up to its first authority-ending character, that one included, is left as it is. */
  lemma HeadIsKept(s: string, f: nat)
    requires AuthorityTo(s, 0, f)
    ensures f == |s| ==> Mask(s) == s
    ensures f < |s| ==> f < |Mask(s)| && Mask(s)[..f + 1] == s[..f + 1]
  {
    var st := StepOf(s);
    MaskBy(s, st);
    if !st.Plain? {
      SlashEnds(s, st.scheme, f);
      hide IsStep, Mask, AuthorityTo;
      WrittenBegins(s, st, f + 1);
      PrefixOf(Written(s, st), Mask(Rest(s, st)), f + 1);
    }
  }

  lemma SlashEnds(s: string, i: nat, f: nat)
    requires SchemeAt(s, i) && AuthorityTo(s, 0, f)
    ensures f <= i + 1 < |s|
  {
    assert EndsAuthority(s[i + 1]);
  }

  lemma WrittenBegins(s: string, st: Step, k: nat)
    requires IsStep(s, st) && !st.Plain? && k <= st.scheme + 3
    ensures k <= |s| && k <= |Written(s, st)| && Written(s, st)[..k] == s[..k]
  {
  }

  lemma PrefixOf(a: string, b: string, k: nat)
    requires k <= |a|
    ensures (a + b)[..k] == a[..k]
  {
  }

  /** Masking a masked text changes nothing. */
  lemma {:induction false} MaskIsIdempotent(s: string)
    ensures Mask(Mask(s)) == Mask(s)
    decreases |s|
  {
    hide *;
    var st := StepOf(s);
    match st {
      case Plain =>
        PlainIsKept(s);
      case Guarded(i, end, at) =>
        MaskGuarded(s, i, end, at);
        MaskIsIdempotent(s[at + 1..]);
        RestReadsOn(s, i, end, at);
        HeadIsKept(s[at + 1..], end - at - 1);
        RemaskLogin(s[..i + 3], s[at + 1..], end - at - 1, i);
      case Bare(i, end) =>
        MaskBare(s, i, end);
        MaskIsIdempotent(s[end..]);
        EndsAtOnce(s, i, end);
        HeadIsKept(s[end..], 0);
        RemaskBare(s, i, end);
    }
  }

  lemma EndsAtOnce(s: string, i: nat, end: nat)
    requires IsStep(s, Bare(i, end)) && end <= |s|
    ensures AuthorityTo(s[end..], 0, 0)
  {
    hide EndsAuthority;
  }

  lemma RestReadsOn(s: string, i: nat, end: nat, at: nat)
    requires IsStep(s, Guarded(i, end, at))
    ensures AuthorityTo(s[at + 1..], 0, end - at - 1) && NoAt(s[at + 1..], 0, end - at - 1)
    ensures FirstScheme(s[..i + 3], i)
  {
    hide EndsAuthority;
    SamePrefix(s, s[..i + 3], i);
  }

  lemma SamePrefix(s: string, t: string, i: nat)
    requires FirstScheme(s, i) && i + 3 <= |t| && t[..i + 3] == s[..i + 3]
    ensures FirstScheme(t, i)
  {
    forall j | 0 <= j < i + 3 ensures t[j] == s[j] {
      assert t[..i + 3][j] == s[..i + 3][j];
    }
    assert forall j :: 0 <= j <= i ==> SchemeAt(t, j) == SchemeAt(s, j);
  }

  lemma RemaskLogin(opening: string, rest: string, f: nat, i: nat)
    requires FirstScheme(opening, i) && |opening| == i + 3
    requires AuthorityTo(rest, 0, f) && NoAt(rest, 0, f)
    requires if f == |rest| then Mask(rest) == rest else f < |Mask(rest)| && Mask(rest)[..f + 1] == rest[..f + 1]
    ensures Mask(opening + MASK + Mask(rest)) == opening + MASK + Mask(Mask(rest))
  {
    var m := Mask(rest);
    HeadAgrees(rest, m, f);
    MaskedStep(opening, m, f, i);
    hide IsStep, Mask;
    MaskBy(opening + MASK + m, Guarded(i, i + 7 + f, i + 6));
    MaskedParts(opening, m);
  }

  lemma HeadAgrees(rest: string, m: string, f: nat)
    requires AuthorityTo(rest, 0, f) && NoAt(rest, 0, f)
    requires if f == |rest| then m == rest else f < |m| && m[..f + 1] == rest[..f + 1]
    ensures AuthorityTo(m, 0, f) && NoAt(m, 0, f)
  {
    hide EndsAuthority;
    forall j | 0 <= j <= f < |rest| ensures m[j] == rest[j] {
      assert m[..f + 1][j] == rest[..f + 1][j];
    }
  }

  lemma MaskedStep(opening: string, m: string, f: nat, i: nat)
    requires FirstScheme(opening, i) && |opening| == i + 3 && AuthorityTo(m, 0, f) && NoAt(m, 0, f)
    ensures IsStep(opening + MASK + m, Guarded(i, i + 7 + f, i + 6))
  {
    MaskIsPlain();
    hide EndsAuthority;
    var out := opening + MASK + m;
    assert out[..i + 3] == opening;
    SamePrefix(opening, out, i);
    assert out[i + 3] == '*' && out[i + 4] == '*' && out[i + 5] == '*' && out[i + 6] == '@';
    assert forall j :: i + 7 <= j < |out| ==> out[j] == m[j - (i + 7)];
  }

  lemma MaskedParts(opening: string, m: string)
    ensures var out := opening + MASK + m; |MASK| == 4 && out[..|opening|] == opening && out[|opening| + 4..] == m
  {
  }

  lemma MaskIsPlain()
    ensures !EndsAuthority('*') && !EndsAuthority('@')
  {
  }

  lemma RemaskBare(s: string, i: nat, end: nat)
    requires IsStep(s, Bare(i, end))
    requires end < |s| ==> Mask(s[end..]) != "" && Mask(s[end..])[..1] == s[end..][..1]
    requires end == |s| ==> Mask(s[end..]) == ""
    ensures var out := s[..end] + Mask(s[end..]); Mask(out) == s[..end] + Mask(Mask(s[end..]))
  {
    hide Mask, EndsAuthority;
    var m := Mask(s[end..]);
    var out := s[..end] + m;
    assert out[..i + 3] == s[..i + 3];
    SamePrefix(s, out, i);
    assert end < |s| ==> m[..1][0] == s[end..][..1][0];
    assert forall j :: 0 <= j < end ==> out[j] == s[j];
    assert IsStep(out, Bare(i, end));
    MaskBy(out, Bare(i, end));
    assert out[..end] == s[..end] && out[end..] == m;
  }

  // ------------------------------------------------------------------ the scan of the text in front of a URL

  datatype Scan = Scan(written: string, reached: bool)

  /**
   The scan of a text whose last "://" follows: what is written up to there, and whether the scan gets to see
   it. It does not when an authority without '@' is still open, for then its two slashes close that authority.
   */
  function ScanTo(head: string): Scan
    decreases |head|
  {
    var st := StepOf(head);
    if st.Plain? then Scan(head, true)
    else if st.Bare? && st.end == |head| then Scan(head + ":", false)
    else var s := ScanTo(Rest(head, st)); Scan(Written(head, st) + s.written, s.reached)
  }

  /** A text that goes on with "://", a login and the rest. */
  function Line(head: string, login: string, tail: string): string {
    head + SCHEME_END + login + tail
  }

  lemma LineShape(head: string, login: string, tail: string)
    ensures var t := Line(head, login, tail);
            && |t| == |head| + 3 + |login| + |tail|
            && (forall j :: 0 <= j < |head| ==> t[j] == head[j])
            && t[|head|] == ':' && t[|head| + 1] == '/' && t[|head| + 2] == '/'
  {
  }

  lemma LineCut(head: string, login: string, tail: string, k: nat)
    requires k <= |head|
    ensures k <= |Line(head, login, tail)|
    ensures Line(head, login, tail)[..k] == head[..k]
    ensures Line(head, login, tail)[k..] == Line(head[k..], login, tail)
  {
  }

  /** A step over a URL inside the head is the same step of the whole line. */
  lemma GuardedInHead(head: string, login: string, tail: string, i: nat, end: nat, at: nat)
    requires IsStep(head, Guarded(i, end, at))
    ensures i + 3 <= at < end <= |head|
    ensures Mask(Line(head, login, tail)) == head[..i + 3] + MASK + Mask(Line(head[at + 1..], login, tail))
  {
    hide *;
    StepBounds(head, Guarded(i, end, at));
    GuardedOfLine(head, login, tail, i, end, at);
    MaskGuarded(Line(head, login, tail), i, if end < |head| then end else end + 1, at);
    LineCut(head, login, tail, i + 3);
    LineCut(head, login, tail, at + 1);
  }

  lemma GuardedOfLine(head: string, login: string, tail: string, i: nat, end: nat, at: nat)
    requires IsStep(head, Guarded(i, end, at))
    ensures IsStep(Line(head, login, tail), Guarded(i, if end < |head| then end else end + 1, at))
  {
    HeadStep(head, login, tail, i, end);
    LineShape(head, login, tail);
    hide Line, FirstScheme, AuthorityTo;
  }

  lemma BareInHead(head: string, login: string, tail: string, i: nat, end: nat)
    requires IsStep(head, Bare(i, end)) && end < |head|
    ensures Mask(Line(head, login, tail)) == head[..end] + Mask(Line(head[end..], login, tail))
  {
    hide *;
    BareOfLine(head, login, tail, i, end);
    MaskBare(Line(head, login, tail), i, end);
    LineCut(head, login, tail, end);
  }

  lemma BareOfLine(head: string, login: string, tail: string, i: nat, end: nat)
    requires IsStep(head, Bare(i, end))
    ensures IsStep(Line(head, login, tail), Bare(i, if end < |head| then end else end + 1))
  {
    HeadStep(head, login, tail, i, end);
    LineShape(head, login, tail);
    hide Line, FirstScheme, AuthorityTo;
  }

  /** An authority that is open at the end of the head takes in the ':' and ends at the slash behind it. */
  lemma HeadStep(head: string, login: string, tail: string, i: nat, end: nat)
    requires FirstScheme(head, i) && AuthorityTo(head, i + 3, end)
    ensures FirstScheme(Line(head, login, tail), i)
    ensures AuthorityTo(Line(head, login, tail), i + 3, if end < |head| then end else end + 1)
  {
    LineCut(head, login, tail, i + 3);
    SamePrefix(head, Line(head, login, tail), i);
    LineShape(head, login, tail);
    assert EndsAuthority('/') && !EndsAuthority(':');
    hide Line, EndsAuthority;
  }

  /** A prefix where no "://" starts is passed over. */
  lemma PlainPrefix(p: string, s: string)
    requires NoScheme(p + s, |p|)
    ensures Mask(p + s) == p + Mask(s)
  {
    hide *;
    var st := StepOf(s);
    StepShifts(p, s, st);
    match st {
      case Plain =>
        PlainIsKept(s);
        PlainIsKept(p + s);
      case Guarded(i, end, at) =>
        MaskGuarded(s, i, end, at);
        MaskGuarded(p + s, |p| + i, |p| + end, |p| + at);
        TakeShifted(p, s, i + 3);
        TakeShifted(p, s, at + 1);
        Associate(p, s[..i + 3], MASK);
        Associate(p, s[..i + 3] + MASK, Mask(s[at + 1..]));
      case Bare(i, end) =>
        MaskBare(s, i, end);
        MaskBare(p + s, |p| + i, |p| + end);
        TakeShifted(p, s, end);
        Associate(p, s[..end], Mask(s[end..]));
    }
  }

  lemma TakeShifted(p: string, s: string, k: nat)
    requires k <= |s|
    ensures (p + s)[..|p| + k] == p + s[..k] && (p + s)[|p| + k..] == s[k..]
  {
  }

  lemma StepShifts(p: string, s: string, st: Step)
    requires NoScheme(p + s, |p|) && IsStep(s, st)
    ensures IsStep(p + s, match st
                          case Plain => Plain
                          case Guarded(i, end, at) => Guarded(|p| + i, |p| + end, |p| + at)
                          case Bare(i, end) => Bare(|p| + i, |p| + end))
  {
    hide EndsAuthority;
    var t := p + s;
    assert forall j :: |p| <= j < |t| ==> t[j] == s[j - |p|];
    var upto := if st.Plain? then |s| else st.scheme;
    forall j | 0 <= j < |p| + upto ensures !SchemeAt(t, j) {
      if j >= |p| {
        assert SchemeAt(t, j) == SchemeAt(s, j - |p|);
      }
    }
    if !st.Plain? {
      assert AuthorityTo(t, |p| + st.scheme + 3, |p| + st.end);
    }
  }

  lemma ScanBy(head: string, st: Step)
    requires IsStep(head, st)
    ensures st.Plain? ==> ScanTo(head) == Scan(head, true)
    ensures st.Guarded? ==>
              var s := ScanTo(head[st.at + 1..]);
              ScanTo(head) == Scan(head[..st.scheme + 3] + MASK + s.written, s.reached)
    ensures st.Bare? && st.end == |head| ==> ScanTo(head) == Scan(head + ":", false)
    ensures st.Bare? && st.end < |head| ==>
              var s := ScanTo(head[st.end..]);
              ScanTo(head) == Scan(head[..st.end] + s.written, s.reached)
  {
    hide IsStep, ScanTo, StepOf;
    StepIsUnique(head, st);
    StepBounds(head, st);
    ScanUnfolds(head);
  }

  lemma ScanUnfolds(head: string)
    ensures var st := StepOf(head);
            ScanTo(head) ==
            if st.Plain? then Scan(head, true)
            else if st.Bare? && st.end == |head| then Scan(head + ":", false)
            else Scan(Written(head, st) + ScanTo(Rest(head, st)).written, ScanTo(Rest(head, st)).reached)
  {
  }

  /** What reaching the last "://" comes to: from there on the text is masked as if nothing stood before it. */
  lemma {:induction false} ReachedRest(head: string, login: string, tail: string)
    requires ScanTo(head).reached
    ensures Mask(Line(head, login, tail)) == ScanTo(head).written + Mask(Line("", login, tail))
    decreases |head|
  {
    hide *;
    var st := StepOf(head);
    ScanBy(head, st);
    StepBounds(head, st);
    match st {
      case Plain =>
        PlainHead(head, login, tail);
      case Guarded(i, end, at) =>
        GuardedInHead(head, login, tail, i, end, at);
        ReachedRest(head[at + 1..], login, tail);
      case Bare(i, end) =>
        BareInHead(head, login, tail, i, end);
        ReachedRest(head[end..], login, tail);
    }
  }

  lemma PlainHead(head: string, login: string, tail: string)
    requires IsStep(head, Plain)
    ensures Mask(Line(head, login, tail)) == head + Mask(Line("", login, tail))
  {
    hide Mask;
    LineShape(head, login, tail);
    forall j | 0 <= j < |head| ensures !SchemeAt(Line(head, login, tail), j) {
      assert !SchemeAt(head, j);
    }
    assert Line(head, login, tail) == head + Line("", login, tail);
    hide Line;
    PlainPrefix(head, Line("", login, tail));
  }

  /** What stepping over it comes to: the ':' is written and the two slashes begin the text still to scan. */
  lemma {:induction false} UnreachedRest(head: string, login: string, tail: string)
    requires !ScanTo(head).reached
    ensures Mask(Line(head, login, tail)) == ScanTo(head).written + Mask("//" + login + tail)
    decreases |head|
  {
    hide *;
    var st := StepOf(head);
    ScanBy(head, st);
    StepBounds(head, st);
    match st {
      case Guarded(i, end, at) =>
        GuardedInHead(head, login, tail, i, end, at);
        UnreachedRest(head[at + 1..], login, tail);
      case Bare(i, end) =>
        if end < |head| {
          BareInHead(head, login, tail, i, end);
          UnreachedRest(head[end..], login, tail);
        } else {
          OpenHead(head, login, tail, i);
        }
      case _ =>
    }
  }

  lemma OpenHead(head: string, login: string, tail: string, i: nat)
    requires IsStep(head, Bare(i, |head|))
    ensures Mask(Line(head, login, tail)) == head + ":" + Mask("//" + login + tail)
  {
    hide *;
    BareOfLine(head, login, tail, i, |head|);
    MaskBare(Line(head, login, tail), i, |head| + 1);
    LineSlashes(head, login, tail);
  }

  lemma LineSlashes(head: string, login: string, tail: string)
    ensures |Line(head, login, tail)| > |head|
    ensures Line(head, login, tail)[..|head| + 1] == head + ":"
    ensures Line(head, login, tail)[|head| + 1..] == "//" + login + tail
  {
  }

  // ------------------------------------------------------------------ which "://" the scan reaches

  /** The last "://" in front of an index. */
  function LastScheme(s: string, upto: nat): (r: Option<nat>)
    requires upto <= |s|
    ensures r.Some? ==> r.value < upto && SchemeAt(s, r.value) && forall j :: r.value < j < upto ==> !SchemeAt(s, j)
    ensures r.None? ==> NoScheme(s, upto)
  {
    if upto == 0 then None else if SchemeAt(s, upto - 1) then Some(upto - 1) else LastScheme(s, upto - 1)
  }

  /** No slash, blank, quote or '@' in it. */
  predicate LeavesOpen(s: string) {
    forall j :: 0 <= j < |s| ==> s[j] != '/' && s[j] != '\'' && s[j] != '"' && s[j] != '@' && !IsWhitespace(s[j])
  }

  /** Counted back from the end: the "://" with no slash, blank, quote or '@' between them and the next, or the end. */
  function OpenSchemes(head: string): nat {
    match LastScheme(head, |head|)
    case None => 0
    case Some(i) => if LeavesOpen(head[i + 3..]) then 1 + OpenSchemes(head[..i]) else 0
  }

  /** Every second one in such a chain is stepped over: the scan reaches a "://" exactly if an even number are open in front of it. */
  lemma {:induction false} ReachedIff(head: string)
    ensures ScanTo(head).reached <==> OpenSchemes(head) % 2 == 0
    decreases |head|
  {
    hide ScanTo, LeavesOpen, LastScheme;
    match LastScheme(head, |head|) {
      case None =>
        ScanBy(head, Plain);
      case Some(i) =>
        LastSplits(head, i);
        ScanPast(head[..i], head[i + 3..]);
        ReachedIff(head[..i]);
    }
  }

  lemma LastSplits(head: string, i: nat)
    requires SchemeAt(head, i) && forall j :: i < j < |head| ==> !SchemeAt(head, j)
    ensures head == Line(head[..i], head[i + 3..], "") && NoScheme(head[i + 3..], |head[i + 3..]|)
  {
    var r := head[i + 3..];
    forall j | 0 <= j < |r| ensures !SchemeAt(r, j) {
      assert !SchemeAt(head, i + 3 + j);
    }
  }

  /** One more "://" behind the head: the scan gets past what follows it unless it reaches that and finds it open. */
  lemma {:induction false} ScanPast(head: string, more: string)
    requires NoScheme(more, |more|)
    ensures ScanTo(Line(head, more, "")).reached <==> !(ScanTo(head).reached && LeavesOpen(more))
    decreases |head|
  {
    hide *;
    var st := StepOf(head);
    ScanBy(head, st);
    StepBounds(head, st);
    match st {
      case Plain =>
        PlainPast(head, more);
      case Guarded(i, end, at) =>
        GuardedOfLine(head, more, "", i, end, at);
        ScanBy(Line(head, more, ""), Guarded(i, if end < |head| then end else end + 1, at));
        LineCut(head, more, "", at + 1);
        ScanPast(head[at + 1..], more);
      case Bare(i, end) =>
        BareOfLine(head, more, "", i, end);
        ScanBy(Line(head, more, ""), Bare(i, if end < |head| then end else end + 1));
        if end < |head| {
          LineCut(head, more, "", end);
          LineLonger(head, more);
          ScanPast(head[end..], more);
        } else {
          LineSlashes(head, more, "");
          LineLonger(head, more);
          SlashesArePlain(more);
          ScanBy("//" + more + "", Plain);
        }
    }
  }

  lemma LineLonger(head: string, more: string)
    ensures |head| + 3 <= |Line(head, more, "")|
  {
  }

  lemma SlashesArePlain(more: string)
    requires NoScheme(more, |more|)
    ensures IsStep("//" + more + "", Plain)
  {
    var t := "//" + more + "";
    assert t[2..] == more;
    forall j | 0 <= j < |t| ensures !SchemeAt(t, j) {
      if j >= 2 { assert SchemeAt(t, j) == SchemeAt(more, j - 2); }
    }
  }

  lemma PlainPast(head: string, more: string)
    requires IsStep(head, Plain) && NoScheme(more, |more|)
    ensures ScanTo(Line(head, more, "")).reached <==> !LeavesOpen(more)
  {
    hide ScanTo, StepOf, LeavesOpen, EndsAuthority, Line;
    var t := Line(head, more, "");
    var st := StepOf(t);
    SchemeBehind(head, more);
    assert st.scheme == |head|;
    StepBounds(t, st);
    ScanBy(t, st);
    OpensTo(head, more, st);
    if !(st.Bare? && st.end == |t|) {
      var k := if st.Guarded? then st.at + 1 else st.end;
      SuffixIsPlain(head, more, k);
      ScanBy(t[k..], Plain);
    }
  }

  lemma SchemeBehind(head: string, more: string)
    requires NoScheme(head, |head|)
    ensures FirstScheme(Line(head, more, ""), |head|)
  {
    LineShape(head, more, "");
    var t := Line(head, more, "");
    hide Line;
    forall j | 0 <= j < |head| ensures !SchemeAt(t, j) {
      assert !SchemeAt(head, j);
    }
  }

  lemma OpenIff(s: string)
    ensures LeavesOpen(s) <==> forall j :: 0 <= j < |s| ==> !EndsAuthority(s[j]) && s[j] != '@'
  {
  }

  lemma OpensTo(head: string, more: string, st: Step)
    requires !st.Plain? && st.scheme == |head| && IsStep(Line(head, more, ""), st)
    ensures st.Bare? && st.end == |Line(head, more, "")| <==> LeavesOpen(more)
  {
    OpenIff(more);
    hide EndsAuthority, LeavesOpen;
    var t := Line(head, more, "");
    assert forall j :: 0 <= j < |more| ==> t[|head| + 3 + j] == more[j];
    if !(st.Bare? && st.end == |t|) {
      var j := if st.Guarded? then st.at else st.end;
      assert t[j] == more[j - |head| - 3];
    } else {
      forall j | 0 <= j < |more| ensures !EndsAuthority(more[j]) && more[j] != '@' {
        assert t[|head| + 3 + j] == more[j];
      }
    }
  }

  lemma SuffixIsPlain(head: string, more: string, k: nat)
    requires NoScheme(more, |more|) && |head| + 3 <= k <= |Line(head, more, "")|
    ensures IsStep(Line(head, more, "")[k..], Plain)
  {
    var t := Line(head, more, "")[k..];
    var from := k - |head| - 3;
    assert t == more[from..];
    forall j | 0 <= j < |t| ensures !SchemeAt(t, j) {
      assert !SchemeAt(more, from + j);
    }
  }

  // ------------------------------------------------------------------ what a reader of the masked text learns

  /** What a URL has between "://" and its host when it has a login: any text that ends in '@'. */
  predicate IsLogin(login: string) {
    login != "" && login[|login| - 1] == '@'
  }

  /** And no slash, blank or quote in it; another '@' there may be. */
  predicate Sealed(login: string) {
    && IsLogin(login)
    && forall i :: 0 <= i < |login| ==> login[i] != '/' && login[i] != '\'' && login[i] != '"' && !IsWhitespace(login[i])
  }

  /** What remains to scan behind a sealed login: an '@' in the host part hides what stands before it. */
  function Behind(tail: string): string {
    match LastAt(tail, 0, AuthorityEnd(tail, 0))
    case Some(at) => tail[at + 1..]
    case None => tail
  }

  lemma SealedAtStart(login: string, tail: string)
    requires Sealed(login)
    ensures Mask(Line("", login, tail)) == SCHEME_END + MASK + Mask(Behind(tail))
  {
    hide *;
    var at := SealedStep(login, tail);
    StartOpens(login, tail);
    MaskGuarded(Line("", login, tail), 0, 3 + |login| + AuthorityEnd(tail, 0), at);
  }

  lemma StartOpens(login: string, tail: string)
    ensures |Line("", login, tail)| >= 3 && Line("", login, tail)[..0 + 3] == SCHEME_END
  {
  }

  lemma SealedStep(login: string, tail: string) returns (at: nat)
    requires Sealed(login)
    ensures IsStep(Line("", login, tail), Guarded(0, 3 + |login| + AuthorityEnd(tail, 0), at))
    ensures at < |Line("", login, tail)| && Line("", login, tail)[at + 1..] == Behind(tail)
  {
    hide *;
    var end := AuthorityEnd(tail, 0);
    AuthorityIs(tail);
    SealedAuthority(login, tail, end);
    BehindIs(tail);
    LastIs(tail, end);
    match LastAt(tail, 0, end) {
      case Some(k) =>
        at := 3 + |login| + k;
        LastInTail(login, tail, end, k);
        StartTail(login, tail, k + 1);
      case None =>
        at := 2 + |login|;
        LastInLogin(login, tail, end);
        StartTail(login, tail, 0);
    }
    StartStep(login, tail, 3 + |login| + end, at);
  }

  lemma StartStep(login: string, tail: string, end: nat, at: nat)
    requires AuthorityTo(Line("", login, tail), 3, end) && LastAtIs(Line("", login, tail), 3, end, at)
    ensures IsStep(Line("", login, tail), Guarded(0, end, at))
  {
    StartShape(login, tail);
    hide AuthorityTo, LastAtIs, Line;
  }

  lemma AuthorityIs(s: string)
    ensures AuthorityTo(s, 0, AuthorityEnd(s, 0))
  {
  }

  lemma LastIs(s: string, end: nat)
    requires end <= |s|
    ensures LastAt(s, 0, end).Some? ==> LastAtIs(s, 0, end, LastAt(s, 0, end).value)
    ensures LastAt(s, 0, end).None? ==> NoAt(s, 0, end)
  {
  }

  lemma BehindIs(tail: string)
    ensures Behind(tail) ==
            match LastAt(tail, 0, AuthorityEnd(tail, 0)) case Some(at) => tail[at + 1..] case None => tail
  {
  }

  lemma LastInTail(login: string, tail: string, end: nat, k: nat)
    requires LastAtIs(tail, 0, end, k)
    ensures LastAtIs(Line("", login, tail), 3, 3 + |login| + end, 3 + |login| + k)
  {
    StartShape(login, tail);
    hide Line;
  }

  lemma LastInLogin(login: string, tail: string, end: nat)
    requires Sealed(login) && NoAt(tail, 0, end)
    ensures LastAtIs(Line("", login, tail), 3, 3 + |login| + end, 2 + |login|)
  {
    StartShape(login, tail);
    hide Line;
  }

  lemma SealedIff(login: string)
    ensures Sealed(login) <==> IsLogin(login) && forall i :: 0 <= i < |login| ==> !EndsAuthority(login[i])
  {
  }

  lemma SealedAuthority(login: string, tail: string, end: nat)
    requires Sealed(login) && AuthorityTo(tail, 0, end)
    ensures AuthorityTo(Line("", login, tail), 3, 3 + |login| + end)
  {
    StartShape(login, tail);
    SealedIff(login);
    hide Line, EndsAuthority, Sealed;
  }

  lemma StartShape(login: string, tail: string)
    ensures var t := Line("", login, tail);
            && |t| == 3 + |login| + |tail| && FirstScheme(t, 0) && t[..3] == SCHEME_END
            && (forall j :: 3 <= j < 3 + |login| ==> t[j] == login[j - 3])
            && (forall j :: 3 + |login| <= j < |t| ==> t[j] == tail[j - 3 - |login|])
  {
  }

  lemma StartTail(login: string, tail: string, k: nat)
    requires k <= |tail|
    ensures 3 + |login| + k <= |Line("", login, tail)| && Line("", login, tail)[3 + |login| + k..] == tail[k..]
  {
  }

  lemma StartInside(login: string, tail: string, k: nat)
    requires k <= |login|
    ensures 3 + k <= |Line("", login, tail)|
    ensures Line("", login, tail)[3 + k..] == login[k..] + tail && Line("", login, tail)[..3 + k] == SCHEME_END + login[..k]
  {
  }

  /** What is written for an unsealed login: the mask for what ends in its last '@' before the cut, or its part before the cut. */
  function Copied(login: string): string {
    var end := AuthorityEnd(login, 0);
    match LastAt(login, 0, end) case Some(_) => MASK case None => login[..end]
  }

  /** And what is left of it to scan as text. */
  function Left(login: string): string {
    var end := AuthorityEnd(login, 0);
    match LastAt(login, 0, end) case Some(at) => login[at + 1..] case None => login[end..]
  }

  /** A login with a slash, blank or quote in it is cut there. */
  lemma UnsealedAtStart(login: string, tail: string)
    requires IsLogin(login) && !Sealed(login)
    ensures Mask(Line("", login, tail)) == SCHEME_END + Copied(login) + Mask(Left(login) + tail)
  {
    hide *;
    var end := AuthorityEnd(login, 0);
    UnsealedStep(login, tail);
    CopiedIs(login);
    StartOpens(login, tail);
    match LastAt(login, 0, end) {
      case Some(k) =>
        StartInside(login, tail, k + 1);
        MaskGuarded(Line("", login, tail), 0, 3 + end, 3 + k);
      case None =>
        StartInside(login, tail, end);
        MaskBare(Line("", login, tail), 0, 3 + end);
    }
  }

  lemma CopiedIs(login: string)
    ensures var end := AuthorityEnd(login, 0);
            match LastAt(login, 0, end)
            case Some(k) => Copied(login) == MASK && Left(login) == login[k + 1..]
            case None => Copied(login) == login[..end] && Left(login) == login[end..]
  {
  }

  lemma UnsealedStep(login: string, tail: string)
    requires IsLogin(login) && !Sealed(login)
    ensures var end := AuthorityEnd(login, 0);
            match LastAt(login, 0, end)
            case Some(k) => IsStep(Line("", login, tail), Guarded(0, 3 + end, 3 + k))
            case None => IsStep(Line("", login, tail), Bare(0, 3 + end))
  {
    var t, end := Line("", login, tail), AuthorityEnd(login, 0);
    StartShape(login, tail);
    assert end < |login|;
    hide Line, EndsAuthority, AuthorityEnd, LastAt;
    assert AuthorityTo(t, 3, 3 + end);
  }

  /** A reached login without slash, blank or quote is masked whole, an '@' inside the password included. */
  lemma ReachedIsMasked(head: string, login: string, tail: string)
    requires Sealed(login) && ScanTo(head).reached
    ensures Mask(Line(head, login, tail)) == ScanTo(head).written + (SCHEME_END + MASK + Mask(Behind(tail)))
  {
    hide *;
    ReachedRest(head, login, tail);
    SealedAtStart(login, tail);
  }

  /** Of any other reached login without a "://", what follows its last '@' before the first slash, blank or quote is shown. */
  lemma UnsealedIsShown(head: string, login: string, tail: string)
    requires IsLogin(login) && !Sealed(login) && NoScheme(login, |login|) && ScanTo(head).reached
    ensures Mask(Line(head, login, tail)) ==
            ScanTo(head).written + (SCHEME_END + Copied(login) + (Left(login) + Mask(tail)))
  {
    LeftIsLogin(login);
    NoneStraddles(Left(login), tail);
    hide *;
    ReachedRest(head, login, tail);
    UnsealedAtStart(login, tail);
    PlainPrefix(Left(login), tail);
  }

  lemma LeftIsLogin(login: string)
    requires IsLogin(login) && !Sealed(login)
    ensures IsLogin(Left(login))
    ensures NoScheme(login, |login|) ==> NoScheme(Left(login), |Left(login)|)
  {
    var from := |login| - |Left(login)|;
    assert Left(login) == login[from..];
    forall j | 0 <= j < |Left(login)| && NoScheme(login, |login|) ensures !SchemeAt(Left(login), j) {
      assert !SchemeAt(login, from + j);
    }
  }

  /** A text that ends in '@' has no part in a "://" that begins in it and ends behind it. */
  lemma NoneStraddles(p: string, s: string)
    requires IsLogin(p) && NoScheme(p, |p|)
    ensures NoScheme(p + s, |p|)
  {
    forall j | 0 <= j < |p| ensures !SchemeAt(p + s, j) {
      assert !SchemeAt(p, j);
    }
  }

  /** Any login without a "://" behind a "://" the scan steps over stands in the result as it was. */
  lemma UnreachedIsShown(head: string, login: string, tail: string)
    requires IsLogin(login) && NoScheme(login, |login|) && !ScanTo(head).reached
    ensures Mask(Line(head, login, tail)) == ScanTo(head).written + (("//" + login) + Mask(tail))
  {
    var p := "//" + login;
    forall j | 0 <= j < |p| ensures !SchemeAt(p, j) {
      if j >= 2 { assert !SchemeAt(login, j - 2); }
    }
    NoneStraddles(p, tail);
    hide Mask;
    UnreachedRest(head, login, tail);
    PlainPrefix(p, tail);
  }

  /** The result tells nothing of the login: it is what an empty one would give, whatever follows. */
  ghost predicate Reveals(head: string, login: string) {
    exists tail: string :: Mask(Line(head, login, tail)) != Mask(Line(head, "@", tail))
  }

  /**
   For every text in front and every login, exactly: nothing of it is revealed if and only if it is empty, or
   an even number of open schemes stand in front of its own and it has no slash, blank or quote in it.
   */
  lemma HiddenIff(head: string, login: string)
    requires IsLogin(login)
    ensures !Reveals(head, login) <==> login == "@" || (OpenSchemes(head) % 2 == 0 && Sealed(login))
  {
    ReachedIff(head);
    assert Sealed("@") by { MaskIsPlain(); }
    if login != "@" {
      if !ScanTo(head).reached {
        UnreachedReveals(head, login);
      } else if Sealed(login) {
        SealedHides(head, login);
      } else {
        UnsealedReveals(head, login);
      }
    }
  }

  lemma SealedHides(head: string, login: string)
    requires ScanTo(head).reached && Sealed(login) && Sealed("@")
    ensures !Reveals(head, login)
  {
    hide Mask, Line, Sealed;
    forall tail: string ensures Mask(Line(head, login, tail)) == Mask(Line(head, "@", tail)) {
      ReachedIsMasked(head, login, tail);
      ReachedIsMasked(head, "@", tail);
    }
  }

  lemma UnreachedReveals(head: string, login: string)
    requires !ScanTo(head).reached && login != "@"
    ensures Reveals(head, login)
  {
    hide Mask, Line, ScanTo;
    UnreachedRest(head, login, "");
    UnreachedRest(head, "@", "");
    assert "//" + login + "" == "//" + login && "//" + "@" + "" == "//@";
    SlashesShow(login);
    SameFront(ScanTo(head).written, Mask("//" + login), Mask("//@"));
  }

  lemma UnsealedReveals(head: string, login: string)
    requires ScanTo(head).reached && IsLogin(login) && !Sealed(login) && Sealed("@")
    ensures Reveals(head, login)
  {
    hide Mask, Line, ScanTo, Sealed, IsLogin, Copied, Left, Behind;
    ReachedRest(head, login, "");
    ReachedRest(head, "@", "");
    UnsealedAtStart(login, "");
    SealedAtStart("@", "");
    CutShows(login);
    assert Left(login) + "" == Left(login);
    SameFront(ScanTo(head).written, Mask(Line("", login, "")), Mask(Line("", "@", "")));
  }

  lemma SameFront(w: string, a: string, b: string)
    requires a != b
    ensures w + a != w + b
  {
    assert (w + a)[|w|..] == a && (w + b)[|w|..] == b;
  }

  lemma SlashesShow(login: string)
    requires login != "@"
    ensures Mask("//" + login) != Mask("//@")
  {
    assert "//" + login != "//@" by { assert ("//" + login)[2..] == login; }
    assert NoScheme("//@", 3);
    hide Mask;
    MaskBy("//@", Plain);
    var s := "//" + login;
    var st := StepOf(s);
    MaskBy(s, st);
    if !st.Plain? {
      WrittenBegins(s, st, st.scheme + 1);
      assert Written(s, st)[..st.scheme + 1][st.scheme] == s[..st.scheme + 1][st.scheme] == ':';
      assert (Written(s, st) + Mask(Rest(s, st)))[st.scheme] == ':';
    }
  }

  lemma CutShows(login: string)
    requires IsLogin(login) && !Sealed(login)
    ensures SCHEME_END + Copied(login) + Mask(Left(login)) != SCHEME_END + MASK + Mask(Behind(""))
  {
    var end, left := AuthorityEnd(login, 0), Left(login);
    LeftIsLogin(login);
    FirstIsKept(left);
    assert Behind("") == "";
    PlainIsKept("");
    MaskIsPlain();
    assert EndsAuthority(login[end]);
    hide Mask, EndsAuthority, AuthorityEnd, Behind;
    var m := Mask(left);
    match LastAt(login, 0, end) {
      case Some(_) =>
        assert |SCHEME_END + Copied(login) + m| > 7;
      case None =>
        var shown := login[..end] + m;
        assert shown[end] == m[..1][0] == left[..1][0] == login[end];
        assert end >= 4 ==> shown[3] == login[3] != '@';
        assert shown != MASK;
        assert SCHEME_END + login[..end] + m == SCHEME_END + shown;
        SameFront(SCHEME_END, shown, MASK);
        assert SCHEME_END + MASK + "" == SCHEME_END + MASK;
    }
  }

  lemma FirstIsKept(s: string)
    requires s != ""
    ensures Mask(s) != "" && Mask(s)[..1] == s[..1]
  {
    var f := AuthorityEnd(s, 0);
    HeadIsKept(s, f);
    hide Mask, AuthorityEnd;
    if f < |s| {
      assert Mask(s)[..1] == Mask(s)[..f + 1][..1] == s[..f + 1][..1] == s[..1];
    }
  }

  /** A slash in the password: the scan reaches the URL, and the password stays readable. */
  lemma SlashIsShown()
    ensures ScanTo("rtsp").reached
    ensures Mask("rtsp://u:pa/s@h") == "rtsp://u:pa/s@h"
  {
    var head, login, tail := "rtsp", "u:pa/s@", "h";
    NoColonNoScheme(head);
    NoColonNoScheme(tail);
    ScanBy(head, Plain);
    SlashCut();
    hide *;
    UnsealedIsShown(head, login, tail);
    PlainIsKept(tail);
    SlashText();
  }

  lemma CutIs(login: string, end: nat)
    requires AuthorityTo(login, 0, end) && NoAt(login, 0, end)
    ensures Copied(login) == login[..end] && Left(login) == login[end..]
  {
    hide EndsAuthority;
    assert AuthorityEnd(login, 0) == end;
  }

  lemma SlashCut()
    ensures var login := "u:pa/s@";
            IsLogin(login) && !Sealed(login) && NoScheme(login, |login|) && Copied(login) == "u:pa" && Left(login) == "/s@"
  {
    var login := "u:pa/s@";
    assert EndsAuthority(login[4]);
    assert AuthorityTo(login, 0, 4) && NoAt(login, 0, 4);
    CutIs(login, 4);
    assert login[..4] == "u:pa" && login[4..] == "/s@";
  }

  lemma SlashText()
    ensures Line("rtsp", "u:pa/s@", "h") == "rtsp://u:pa/s@h"
    ensures "rtsp" + (SCHEME_END + "u:pa" + ("/s@" + "h")) == "rtsp://u:pa/s@h"
  {
  }

  /** A scheme that stands inside an open authority is stepped over, and its password stays readable. */
  lemma NestedSchemeIsMissed()
    ensures !ScanTo("a://b").reached
    ensures Mask("a://b://u:p@h") == "a://b://u:p@h"
  {
    var head, login, tail := "a://b", "u:p@", "h";
    NestedStep();
    ScanBy(head, Bare(1, 5));
    NoColonNoScheme(tail);
    hide *;
    UnreachedIsShown(head, login, tail);
    PlainIsKept(tail);
    NestedText();
  }

  lemma NestedStep()
    ensures IsStep("a://b", Bare(1, 5)) && |"a://b"| == 5 && IsLogin("u:p@") && NoScheme("u:p@", |"u:p@"|)
  {
  }

  lemma NestedText()
    ensures Line("a://b", "u:p@", "h") == "a://b://u:p@h"
    ensures "a://b" + ":" + (("//" + "u:p@") + "h") == "a://b://u:p@h"
  {
  }

  lemma NoColonNoScheme(s: string)
    requires ':' !in s
    ensures NoScheme(s, |s|) && IsStep(s, Plain)
  {
  }

  // ------------------------------------------------------------------ texts whose scan reaches the next URL

  /** A text that leaves no authority open: it is empty or ends in whitespace or a quote. */
  predicate Closes(before: string) {
    before == "" || (EndsAuthority(before[|before| - 1]) && before[|before| - 1] != '/')
  }

  /** The scan reaches the URL that follows such a text and a scheme name, whatever the text holds. */
  lemma {:induction false} FreshUrlIsReached(before: string, name: string)
    requires Closes(before) && NoScheme(name, |name|)
    ensures ScanTo(before + name).reached
    decreases |before|
  {
    var st := StepOf(before);
    if st.Plain? {
      PlainAcross(before, name);
      StepIsUnique(before + name, Plain);
    } else {
      StepAcross(before, name, st);
      StepIsUnique(before + name, st);
      hide IsStep, StepOf, Written, Rest, Closes;
      FreshUrlIsReached(Rest(before, st), name);
    }
  }

  lemma PlainAcross(before: string, name: string)
    requires Closes(before) && NoScheme(name, |name|) && NoScheme(before, |before|)
    ensures NoScheme(before + name, |before + name|)
  {
    assert !EndsAuthority(':');
    hide EndsAuthority;
    forall j | 0 <= j < |before + name| ensures !SchemeAt(before + name, j) {
      if j < |before| {
        assert !SchemeAt(before, j);
      } else {
        assert !SchemeAt(name, j - |before|);
      }
    }
  }

  lemma StepAcross(before: string, name: string, st: Step)
    requires Closes(before) && IsStep(before, st) && !st.Plain?
    ensures st.end < |before| && IsStep(before + name, st)
    ensures Rest(before + name, st) == Rest(before, st) + name && Closes(Rest(before, st))
  {
    hide EndsAuthority;
    assert before[st.scheme + 2] == '/';
    assert st.end < |before|;
    assert (before + name)[..st.scheme + 3] == before[..st.scheme + 3];
    SamePrefix(before, before + name, st.scheme);
    assert AuthorityTo(before + name, st.scheme + 3, st.end);
    DropClosed(before, name, if st.Guarded? then st.at + 1 else st.end);
  }

  lemma DropClosed(before: string, name: string, k: nat)
    requires k < |before| && Closes(before)
    ensures (before + name)[k..] == before[k..] + name && Closes(before[k..])
  {
  }

  // ------------------------------------------------------------------ the camera's URLs

  function Masked(url: Option<string>): Option<string> {
    match url case None => None case Some(u) => Some(Mask(u))
  }

  /** Two cameras that differ in their logins only. */
  predicate SameButLogin(a: Camera, b: Camera) {
    && HasUser(a) && HasUser(b)
    && b == a.(username := b.username, password := b.password)
  }

  /** The two cameras' logins cannot be told apart in any text that quotes their URL after a space or a quote. */
  lemma LoginsLookAlike(a: Camera, b: Camera, secrets: Secrets, before: string, tail: string)
    requires SameButLogin(a, b) && Closes(before)
    ensures Mask(before + (RTSP + Credentials(a, secrets) + tail)) == Mask(before + (RTSP + Credentials(b, secrets) + tail))
  {
    var head := before + "rtsp";
    assert NoScheme("rtsp", 4);
    CredentialsDelimited(a, secrets);
    CredentialsDelimited(b, secrets);
    assert Sealed(Credentials(a, secrets)) && Sealed(Credentials(b, secrets));
    hide *;
    FreshUrlIsReached(before, "rtsp");
    ReachedIsMasked(head, Credentials(a, secrets), tail);
    ReachedIsMasked(head, Credentials(b, secrets), tail);
    LineIs(before, Credentials(a, secrets), tail);
    LineIs(before, Credentials(b, secrets), tail);
  }

  lemma LineIs(before: string, login: string, tail: string)
    ensures Line(before + "rtsp", login, tail) == before + (RTSP + login + tail)
  {
  }

  /** Masking a camera's stream URL gives one string for all usernames and passwords, on every host and vendor. */
  lemma StreamUrlIsMasked(a: Camera, b: Camera, stream: string, secrets: Secrets)
    requires SameButLogin(a, b)
    ensures Masked(StreamUrl(a, stream, secrets)) == Masked(StreamUrl(b, stream, secrets))
  {
    assert Closes("");
    hide Mask, Credentials, Decimal, Closes;
    match (Override(a, stream), HostOf(a), VendorPath(a.vendor, stream)) {
      case (None, Some(host), Some(path)) =>
        var tail := host + ":" + Decimal(a.rtspPort) + path;
        LoginsLookAlike(a, b, secrets, "", tail);
        assert forall u: string :: "" + u == u;
      case _ =>
    }
  }

  /** The same of the replay URL. */
  lemma ReplayUrlIsMasked(a: Camera, b: Camera, start: string, end: string, secrets: Secrets)
    requires SameButLogin(a, b)
    ensures Masked(ReplayUrl(a, start, end, secrets)) == Masked(ReplayUrl(b, start, end, secrets))
  {
    assert Closes("");
    hide Mask, Credentials, Decimal, Closes, Replace;
    if (a.replayTemplate.None? || Trim(a.replayTemplate.value) == "") && HostOf(a).Some? {
      var tail := HostOf(a).value + ":" + Decimal(a.rtspPort) + "/Streaming/tracks/" + HikChannel(a.recordStream)
                  + "?starttime=" + start + "&endtime=" + end;
      LoginsLookAlike(a, b, secrets, "", tail);
      assert forall u: string :: "" + u == u;
    }
  }
}
