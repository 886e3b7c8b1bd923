/** Splitting bytes at a separator of several bytes, and joining them again. */
module SdsSplit {
  import opened Bytes
  import opened Sds

  /** The separator stands at k. */
  predicate At(s: bytes, sep: bytes, k: nat) { k + |sep| <= |s| && s[k..k + |sep|] == sep }

  predicate Free(s: bytes, sep: bytes) { forall k: nat :: k <= |s| ==> !At(s, sep, k) }

  /** Where the separator stands first, from k on; one behind the end if it does not. */
  function FindFrom(s: bytes, sep: bytes, k: nat): (j: nat)
    requires k <= |s| + 1
    ensures k <= j <= |s| + 1
    ensures j <= |s| ==> At(s, sep, j)
    ensures forall i :: k <= i < j ==> !At(s, sep, i)
    decreases |s| + 1 - k
  {
    if k > |s| || At(s, sep, k) then k else FindFrom(s, sep, k + 1)
  }

  function Split(s: bytes, sep: bytes): (ts: seq<bytes>)
    requires sep != []
    ensures ts != []
  {
    var j := FindFrom(s, sep, 0);
    if j > |s| then [s] else [s[..j]] + Split(s[j + |sep|..], sep)
  }

  function Join(ts: seq<bytes>, sep: bytes): bytes {
    if ts == [] then [] else if |ts| == 1 then ts[0] else ts[0] + sep + Join(ts[1..], sep)
  }

  /** No token contains the separator, not even together with the beginning of the separator
      that follows it. */
  ghost predicate Leftmost(ts: seq<bytes>, sep: bytes) {
    if |ts| == 0 then false
    else if |ts| == 1 then Free(ts[0], sep)
    else (forall k :: 0 <= k < |ts[0]| ==> !At(ts[0] + sep, sep, k)) && Leftmost(ts[1..], sep)
  }

  lemma {:induction false} JoinOfSplit(s: bytes, sep: bytes)
    requires sep != []
    ensures Join(Split(s, sep), sep) == s
    decreases |s|
  {
    var j := FindFrom(s, sep, 0);
    if j <= |s| {
      JoinOfSplit(s[j + |sep|..], sep);
      assert s == s[..j] + sep + s[j + |sep|..];
      assert Split(s, sep)[1..] == Split(s[j + |sep|..], sep);
    }
  }

  /** An occurrence that starts in front of a separator does not reach behind it. */
  lemma AtIsLocal(t: bytes, sep: bytes, rest: bytes, k: nat)
    requires k <= |t|
    ensures At(t + sep + rest, sep, k) <==> At(t + sep, sep, k)
  {
    assert k + |sep| <= |t + sep|;
    assert (t + sep + rest)[k..k + |sep|] == (t + sep)[k..k + |sep|];
  }

  lemma {:induction false} SplitIsLeftmost(s: bytes, sep: bytes)
    requires sep != []
    ensures Leftmost(Split(s, sep), sep)
    decreases |s|
  {
    var j := FindFrom(s, sep, 0);
    if j <= |s| {
      var t, rest := s[..j], s[j + |sep|..];
      assert s == t + sep + rest;
      SplitIsLeftmost(rest, sep);
      assert Split(s, sep)[1..] == Split(rest, sep);
      forall k | 0 <= k < |t| ensures !At(t + sep, sep, k) {
        AtIsLocal(t, sep, rest, k);
      }
    }
  }

  /** The first token, if the separator behind it is the first one. */
  lemma SplitTakes(t: bytes, sep: bytes, rest: bytes)
    requires sep != [] && forall k :: 0 <= k < |t| ==> !At(t + sep, sep, k)
    ensures Split(t + sep + rest, sep) == [t] + Split(rest, sep)
  {
    var s := t + sep + rest;
    forall k | 0 <= k < |t| ensures !At(s, sep, k) {
      AtIsLocal(t, sep, rest, k);
    }
    assert At(s, sep, |t|) && FindFrom(s, sep, 0) == |t|;
    assert s[..|t|] == t && s[|t| + |sep|..] == rest;
  }

  lemma {:induction false} SplitOfJoin(ts: seq<bytes>, sep: bytes)
    requires sep != [] && Leftmost(ts, sep)
    ensures Split(Join(ts, sep), sep) == ts
    decreases |ts|
  {
    if |ts| > 1 {
      SplitTakes(ts[0], sep, Join(ts[1..], sep));
      SplitOfJoin(ts[1..], sep);
      assert ts == [ts[0]] + ts[1..];
    }
  }

  /** Splitting is the only way to take the bytes apart at leftmost separators. */
  lemma SplitIsTheSplit(s: bytes, sep: bytes, ts: seq<bytes>)
    requires sep != []
    ensures ts == Split(s, sep) <==> Join(ts, sep) == s && Leftmost(ts, sep)
  {
    JoinOfSplit(s, sep);
    SplitIsLeftmost(s, sep);
    if Leftmost(ts, sep) {
      SplitOfJoin(ts, sep);
    }
  }

  lemma {:induction false} LeftmostIsFree(ts: seq<bytes>, sep: bytes, k: nat)
    requires sep != [] && Leftmost(ts, sep) && k < |ts|
    ensures Free(ts[k], sep)
    decreases |ts|
  {
    if k > 0 {
      LeftmostIsFree(ts[1..], sep, k - 1);
    } else if |ts| > 1 {
      var t := ts[0];
      forall i: nat | i <= |t| ensures !At(t, sep, i) {
        if At(t, sep, i) {
          assert (t + sep)[i..i + |sep|] == t[i..i + |sep|];
          assert At(t + sep, sep, i);
        }
      }
    }
  }

  /** No token of a split contains the separator. */
  lemma TokensAreFree(s: bytes, sep: bytes, k: nat)
    requires sep != [] && k < |Split(s, sep)|
    ensures Free(Split(s, sep)[k], sep)
  {
    SplitIsLeftmost(s, sep);
    LeftmostIsFree(Split(s, sep), sep, k);
  }

  /** For a separator of one byte it is enough that no token contains it. */
  lemma {:induction false} OneByteLeftmost(ts: seq<bytes>, c: byte)
    requires ts != []
    ensures Leftmost(ts, [c]) <==> forall k :: 0 <= k < |ts| ==> c !in ts[k]
    decreases |ts|
  {
    var t := ts[0];
    forall u: bytes, i: nat ensures At(u, [c], i) <==> i < |u| && u[i] == c {
      if i < |u| {
        assert u[i..i + 1] == [u[i]];
      }
    }
    if |ts| == 1 {
      assert c in t ==> exists i :: 0 <= i < |t| && At(t, [c], i);
    } else {
      OneByteLeftmost(ts[1..], c);
      assert forall i :: 0 <= i < |t| ==> (t + [c])[i] == t[i];
      assert c in t ==> exists i :: 0 <= i < |t| && At(t + [c], [c], i);
      assert forall k :: 0 < k < |ts| ==> ts[k] == ts[1..][k - 1];
      assert forall k :: 0 <= k < |ts| - 1 ==> ts[1..][k] == ts[k + 1];
    }
  }

  /** Splitting at a byte undoes joining with it exactly when no token contains it. */
  lemma OneByteRoundTrip(ts: seq<bytes>, c: byte)
    requires ts != []
    ensures Split(Join(ts, [c]), [c]) == ts <==> forall k :: 0 <= k < |ts| ==> c !in ts[k]
  {
    OneByteLeftmost(ts, c);
    SplitIsTheSplit(Join(ts, [c]), [c], ts);
  }

  /** With more bytes that is not enough: "xa" and "b" joined with "aa". */
  lemma FreeTokensMaySplitElsewhere()
    ensures var ts: seq<bytes>, sep: bytes := [[120, 97], [98]], [97, 97];
            Free(ts[0], sep) && Free(ts[1], sep) && Split(Join(ts, sep), sep) == [[120], [97, 98]]
  {
    var ts: seq<bytes>, sep: bytes := [[120, 97], [98]], [97, 97];
    var us: seq<bytes> := [[120], [97, 98]];
    assert Join(ts, sep) == [120, 97, 97, 97, 98] == Join(us, sep);
    var t: bytes, rest: bytes := [97, 98], [120, 97, 97];
    assert t[..2][1] != sep[1] && rest[..2][0] != sep[0];
    assert us[0] + sep == rest && !At(rest, sep, 0) && !At(t, sep, 0);
    assert us[1..] == [t] && Free(t, sep);
    SplitOfJoin(us, sep);
  }

  /** The tokens found so far and those of the rest are the tokens of the whole; between
      `start` and j there is no separator. */
  ghost predicate Splitting(s: bytes, sep: bytes, found: seq<bytes>, start: nat, j: nat) {
    && sep != [] && start <= j && start <= |s|
    && found + Split(s[start..], sep) == Split(s, sep)
    && forall k :: start <= k < j ==> !At(s, sep, k)
  }

  lemma SkipByte(s: bytes, sep: bytes, found: seq<bytes>, start: nat, j: nat)
    requires Splitting(s, sep, found, start, j) && !At(s, sep, j)
    ensures Splitting(s, sep, found, start, j + 1)
  {
  }

  lemma {:induction false} FindInRest(s: bytes, sep: bytes, start: nat, j: nat)
    requires sep != [] && start <= j <= |s| && At(s, sep, j)
    requires forall k :: start <= k < j ==> !At(s, sep, k)
    ensures FindFrom(s[start..], sep, 0) == j - start
  {
    forall k: nat | start + k <= |s| ensures At(s[start..], sep, k) <==> At(s, sep, start + k) {
      if start + k + |sep| <= |s| {
        assert s[start..][k..k + |sep|] == s[start + k..start + k + |sep|];
      }
    }
    assert At(s[start..], sep, j - start);
  }

  lemma TakeToken(s: bytes, sep: bytes, found: seq<bytes>, start: nat, j: nat)
    requires Splitting(s, sep, found, start, j) && At(s, sep, j)
    ensures Splitting(s, sep, found + [s[start..j]], j + |sep|, j + |sep|)
  {
    assert j + |sep| <= |s|;
    hide At, FindFrom;
    FindInRest(s, sep, start, j);
    var rest := s[start..];
    assert rest[..j - start] == s[start..j] && rest[j - start + |sep|..] == s[j + |sep|..];
    ConcatAssoc(found, [s[start..j]], Split(s[j + |sep|..], sep));
  }

  lemma AtInRest(s: bytes, sep: bytes, start: nat, k: nat)
    requires start <= |s|
    ensures At(s[start..], sep, k) <==> At(s, sep, start + k)
  {
    if start + k + |sep| <= |s| {
      assert s[start..][k..k + |sep|] == s[start + k..start + k + |sep|];
    }
  }

  lemma TakeLast(s: bytes, sep: bytes, found: seq<bytes>, start: nat, j: nat)
    requires Splitting(s, sep, found, start, j) && j > |s| - |sep|
    ensures Split(s, sep) == found + [s[start..]]
  {
    var rest := s[start..];
    forall k: nat | k <= |rest| ensures !At(rest, sep, k) {
      AtInRest(s, sep, start, k);
    }
  }

  /** Twice as many slots. */
  method Doubled(tokens: array<bytes>) returns (more: array<bytes>)
    ensures fresh(more) && more.Length == 2 * tokens.Length
    ensures more[..tokens.Length] == tokens[..]
  {
    more := new bytes[2 * tokens.Length](_ => []);
    forall k | 0 <= k < tokens.Length {
      more[k] := tokens[k];
    }
  }

  /** The tokens found are in the slots, and there is room for the last one. */
  ghost predicate InSlots(s: bytes, sep: bytes, slots: array<bytes>, elements: nat, start: nat, j: nat)
    reads slots
  {
    elements < slots.Length && Splitting(s, sep, slots[..elements], start, j)
  }

  /** Puts a token behind the ones found. */
  method PutToken(slots: array<bytes>, elements: nat, token: bytes)
    requires elements < slots.Length
    modifies slots
    ensures slots[..elements + 1] == old(slots[..elements]) + [token]
  {
    slots[elements] := token;
  }

  /** One turn of the loop. */
  method SplitTurn(s: bytes, sep: bytes, old_slots: array<bytes>, elements: nat, start: nat, j: nat)
      returns (slots: array<bytes>, elements': nat, start': nat, j': nat)
    requires InSlots(s, sep, old_slots, elements, start, j) && j < |s| - (|sep| - 1)
    modifies old_slots
    ensures j < j' && InSlots(s, sep, slots, elements', start', j') && (slots == old_slots || fresh(slots))
  {
    assert Splitting(s, sep, old_slots[..elements], start, j) && elements < old_slots.Length && sep != [] && start <= j;
    ghost var found := old_slots[..elements];
    assert At(s, sep, j) <==> s[j..j + |sep|] == sep;
    assert |sep| == 1 ==> s[j..j + 1] == [s[j]] && sep == [sep[0]];
    hide At, Splitting, FindFrom;
    slots, elements', start', j' := old_slots, elements, start, j;
    if slots.Length < elements + 2 {
      slots := Doubled(slots);
      assert slots[..elements] == found;
    }
    if (|sep| == 1 && s[j] == sep[0]) || s[j..j + |sep|] == sep {
      TakeToken(s, sep, found, start, j);
      PutToken(slots, elements, s[start..j]);
      elements', start', j' := elements + 1, j + |sep|, j + |sep| - 1;
    } else {
      SkipByte(s, sep, found, start, j);
    }
    j' := j' + 1;
  }

  /** The search for separators. */
  method SplitAll(s: bytes, sep: bytes) returns (slots: array<bytes>, elements: nat, start: nat, j: nat)
    requires sep != [] && Splitting(s, sep, [], 0, 0)
    ensures fresh(slots) && InSlots(s, sep, slots, elements, start, j) && j >= |s| - (|sep| - 1)
  {
    slots, elements, start, j := new bytes[5](_ => []), 0, 0, 0;
    assert slots[..0] == [];
    assert InSlots(s, sep, slots, elements, start, j);
    hide *;
    while j < |s| - (|sep| - 1)
      invariant fresh(slots) && InSlots(s, sep, slots, elements, start, j)
      decreases |s| - j
    {
      slots, elements, start, j := SplitTurn(s, sep, slots, elements, start, j);
    }
  }

  /** sdssplitlen */
  method SplitLen(s: bytes, sep: bytes) returns (tokens: array?<bytes>, count: nat)
    ensures tokens == null <==> sep == [] || s == []
    ensures tokens == null ==> count == 0
    ensures tokens != null ==> count <= tokens.Length && tokens[..count] == Split(s, sep)
  {
    if |sep| < 1 || |s| <= 0 {
      return null, 0;
    }
    assert s[0..] == s && [] + Split(s, sep) == Split(s, sep);
    var slots, elements, start, j := SplitAll(s, sep);
    TakeLast(s, sep, slots[..elements], start, j);
    PutToken(slots, elements, s[start..]);
    return slots, elements + 1;
  }

  /** The rest of a join, if any, behind what is joined already. */
  ghost predicate Joining(join: Sds, argv: seq<bytes>, sep: bytes, whole: bytes)
    reads join, join.buf
  {
    join.Valid() && join.View().content + Join(argv, sep) == whole && Fits(|whole|)
  }

  /** Appends one string and, unless it is the last one, the separator. */
  method JoinTurn(join: Sds, argv: seq<bytes>, sep: bytes, ghost whole: bytes)
    requires argv != [] && Joining(join, argv, sep, whole)
    modifies join, join.buf
    ensures (join.buf == old(join.buf) || fresh(join.buf)) && Joining(join, argv[1..], sep, whole)
  {
    ghost var done, rest := join.View().content, Join(argv[1..], sep);
    assert whole == if |argv| == 1 then done + argv[0] else done + argv[0] + sep + rest;
    hide GrownSize, GrowType, ReqType;
    join.CatLen(argv[0]);
    if |argv| != 1 {
      join.CatLen(sep);
    }
  }

  /** sdsjoinsds */
  method JoinSds(argv: seq<bytes>, sep: bytes) returns (join: Sds)
    requires Fits(|Join(argv, sep)|)
    ensures fresh(join) && join.Valid() && join.View().content == Join(argv, sep)
  {
    join := new Sds(Some([]), 0);
    ghost var whole := Join(argv, sep);
    var j := 0;
    assert argv[0..] == argv;
    while j < |argv|
      invariant 0 <= j <= |argv|
      invariant fresh(join) && fresh(join.buf)
      invariant Joining(join, argv[j..], sep, whole)
    {
      hide *;
      JoinTurn(join, argv[j..], sep, whole);
      assert argv[j..][1..] == argv[j + 1..];
      j := j + 1;
    }
    assert argv[j..] == [];
  }

  /** Joining nothing gives nothing, joining one string that string, and two joins are joined
      like two strings. */
  lemma {:induction false} JoinConcat(a: seq<bytes>, b: seq<bytes>, t: bytes, sep: bytes)
    ensures Join([], sep) == [] && Join([t], sep) == t
    ensures a != [] && b != [] ==> Join(a + b, sep) == Join(a, sep) + sep + Join(b, sep)
    decreases |a|
  {
    if a != [] && b != [] {
      assert (a + b)[1..] == a[1..] + b;
      if |a| > 1 {
        JoinConcat(a[1..], b, t, sep);
      } else {
        assert a[1..] + b == b;
      }
    }
  }
}
