/**
 The pure parts of the helper module: the kind-tagged claims obtained by
 inspecting a built artifact, the "messy vec" visitor that accepts either a
 comma-delimited string or a sequence of strings, and the generic split/join
 on one separator character that the visitor and the path parser share.
 */
module Helper {
  import opened Manifest

  datatype Option<T> = None | Some(value: T)

  datatype Result<T, E> = Ok(value: T) | Err(error: E)

  /** An unsigned 16-bit integer, the width of an actor's `revision`. */
  newtype u16 = x: int | 0 <= x < 0x1_0000

  /** `StoredActorClaims`; `moduleId` is the source's `module` field. */
  datatype ActorClaims = ActorClaims(
    callAlias: string,
    capabilities: seq<string>,
    issuer: Option<string>,
    name: string,
    revision: u16,
    subject: Option<string>,
    tags: seq<string>,
    version: string,
    moduleId: string)

  /** `StoredProviderClaims`. */
  datatype ProviderClaims = ProviderClaims(
    capabilityContractId: string,
    issuer: string,
    name: string,
    revision: string,
    version: string,
    configSchema: Option<string>,
    service: string,
    targets: seq<string>,
    vendor: string,
    success: bool)

  /** `ComponentClaims`: exactly two variants. */
  datatype ComponentClaims =
    | Actor(actor: ActorClaims)
    | Provider(provider: ProviderClaims)
  {
    /** `get_actor_claims`: the wrapped actor claims; on a provider the source panics. */
    function GetActorClaims(): (c: ActorClaims)
      requires Actor?
      ensures this == Actor(c)
    {
      match this
      case Actor(claims) => claims
    }

    /** `get_provider_claims`: the wrapped provider claims; on an actor the source panics. */
    function GetProviderClaims(): (c: ProviderClaims)
      requires Provider?
      ensures this == Provider(c)
    {
      match this
      case Provider(claims) => claims
    }
  }

  /** The `(Component, ComponentClaims)` pair the registry and the dev state file under a key. */
  type Entry = (Component, ComponentClaims)

  // ---------------------------------------------------------------------------
  // Splitting and joining on a separator character (`str::split(char)`, `join`)
  // ---------------------------------------------------------------------------

  /** Number of occurrences of `c` in `s`. */
  function Count(s: string, c: char): nat
  {
    if s == [] then 0 else (if s[0] == c then 1 else 0) + Count(s[1..], c)
  }

  /**
   `s.split(sep)`: the maximal pieces between separators, in order. There is
   always at least one piece; an empty string gives one empty piece.
   */
  function Split(s: string, sep: char): (pieces: seq<string>)
    ensures |pieces| >= 1
  {
    if s == [] then [""]
    else if s[0] == sep then [""] + Split(s[1..], sep)
    else
      var rest := Split(s[1..], sep);
      [[s[0]] + rest[0]] + rest[1..]
  }

  /** `pieces.join(sep)`. */
  function Join(pieces: seq<string>, sep: char): string
  {
    if |pieces| == 0 then ""
    else if |pieces| == 1 then pieces[0]
    else pieces[0] + [sep] + Join(pieces[1..], sep)
  }

  /** Joining the pieces of a split with the same separator gives back the input. */
  lemma {:induction false} JoinSplit(s: string, sep: char)
    ensures Join(Split(s, sep), sep) == s
  {
    if s != [] {
      var rest := Split(s[1..], sep);
      JoinSplit(s[1..], sep);
      if s[0] == sep {
        assert Split(s, sep) == [""] + rest;
      } else {
        var pieces := Split(s, sep);
        assert pieces == [[s[0]] + rest[0]] + rest[1..];
        if |rest| == 1 {
          assert Join(rest, sep) == rest[0];
        } else {
          assert pieces[1..] == rest[1..];
          assert Join(rest, sep) == rest[0] + [sep] + Join(rest[1..], sep);
        }
        assert s == [s[0]] + s[1..];
      }
    }
  }

  /** A split yields one more piece than there are separators. */
  lemma {:induction false} SplitCount(s: string, sep: char)
    ensures |Split(s, sep)| == Count(s, sep) + 1
  {
    if s != [] {
      SplitCount(s[1..], sep);
    }
  }

  /** No piece of a split contains the separator. */
  lemma {:induction false} SplitPiecesFree(s: string, sep: char)
    ensures forall k :: 0 <= k < |Split(s, sep)| ==> sep !in Split(s, sep)[k]
  {
    if s != [] {
      SplitPiecesFree(s[1..], sep);
      var rest := Split(s[1..], sep);
      if s[0] != sep {
        assert sep !in rest[0];
        assert sep !in [s[0]] + rest[0];
      }
    }
  }

  /** A string free of the separator splits into itself alone. */
  lemma {:induction false} SplitFree(s: string, sep: char)
    requires sep !in s
    ensures Split(s, sep) == [s]
  {
    if s != [] {
      SplitFree(s[1..], sep);
      assert s == [s[0]] + s[1..];
    }
  }

  /** Splitting `a + [sep] + b` with `a` free of `sep` peels off `a` as the first piece. */
  lemma {:induction false} SplitCons(a: string, b: string, sep: char)
    requires sep !in a
    ensures Split(a + [sep] + b, sep) == [a] + Split(b, sep)
  {
    if a == [] {
      assert a + [sep] + b == [sep] + b;
      assert ([sep] + b)[1..] == b;
    } else {
      SplitCons(a[1..], b, sep);
      var s := a + [sep] + b;
      assert s[0] == a[0] && s[1..] == a[1..] + [sep] + b;
      assert [a[0]] + a[1..] == a;
    }
  }

  /**
   The other direction of the round trip: splitting a join of at least one
   separator-free piece gives back the pieces.
   */
  lemma {:induction false} SplitJoin(pieces: seq<string>, sep: char)
    requires |pieces| >= 1
    requires forall k :: 0 <= k < |pieces| ==> sep !in pieces[k]
    ensures Split(Join(pieces, sep), sep) == pieces
  {
    if |pieces| == 1 {
      SplitFree(pieces[0], sep);
    } else {
      SplitJoin(pieces[1..], sep);
      SplitCons(pieces[0], Join(pieces[1..], sep), sep);
      assert [pieces[0]] + pieces[1..] == pieces;
    }
  }

  /** `Split` unfolded once on a string with a known first character. */
  lemma SplitFirst(c: char, t: string, sep: char)
    ensures Split([c] + t, sep)
      == if c == sep then [""] + Split(t, sep)
         else [[c] + Split(t, sep)[0]] + Split(t, sep)[1..]
  {
    assert ([c] + t)[0] == c && ([c] + t)[1..] == t;
  }

  /** Prepending a character to the first of several pieces, then appending more pieces. */
  lemma GlueFirst(c: char, ra: seq<string>, rb: seq<string>)
    requires |ra| >= 1
    ensures [[c] + (ra + rb)[0]] + (ra + rb)[1..] == ([[c] + ra[0]] + ra[1..]) + rb
  {
    assert (ra + rb)[0] == ra[0];
    assert (ra + rb)[1..] == ra[1..] + rb;
  }

  /** Splitting `a + [sep] + b` concatenates the splits of `a` and of `b`. */
  lemma {:induction false} SplitAppend(a: string, b: string, sep: char)
    ensures Split(a + [sep] + b, sep) == Split(a, sep) + Split(b, sep)
  {
    if a == [] {
      assert a + [sep] + b == [sep] + b;
      SplitFirst(sep, b, sep);
    } else {
      var c, u := a[0], a[1..];
      var t := u + [sep] + b;
      SplitAppend(u, b, sep);
      assert a + [sep] + b == [c] + t;
      assert a == [c] + u;
      SplitFirst(c, t, sep);
      SplitFirst(c, u, sep);
      if c != sep {
        GlueFirst(c, Split(u, sep), Split(b, sep));
      }
    }
  }

  // ---------------------------------------------------------------------------
  // The messy-vec visitor
  // ---------------------------------------------------------------------------

  /**
   `MessyVecVisitor::visit_str`: a comma-delimited string becomes its pieces.
   Joining them with commas restores the string, there is one more piece than
   commas, and no piece holds a comma.
   */
  function VisitStr(value: string): (pieces: seq<string>)
    ensures Join(pieces, ',') == value
    ensures |pieces| == Count(value, ',') + 1
    ensures forall k :: 0 <= k < |pieces| ==> ',' !in pieces[k]
  {
    JoinSplit(value, ',');
    SplitCount(value, ',');
    SplitPiecesFree(value, ',');
    Split(value, ',')
  }

  /**
   The deserializer's sequence access: it yields `elements` in order and then
   either reports the end of the sequence (`failure == None`) or fails.
   */
  datatype SeqAccess = SeqAccess(elements: seq<string>, failure: Option<string>)

  /** `seq.next_element()` when `i` elements have been taken. */
  function NextElement(access: SeqAccess, i: nat): (r: Result<Option<string>, string>)
    ensures r.Ok? && r.value.Some? <==> i < |access.elements|
  {
    if i < |access.elements| then Ok(Some(access.elements[i]))
    else if access.failure.None? then Ok(None)
    else Err(access.failure.value)
  }

  /**
   `MessyVecVisitor::visit_seq`: collects every element in the order received;
   an error from the access is propagated and nothing is returned.
   */
  method VisitSeq(access: SeqAccess) returns (r: Result<seq<string>, string>)
    ensures access.failure.None? ==> r == Ok(access.elements)
    ensures access.failure.Some? ==> r == Err(access.failure.value)
  {
    var values: seq<string> := [];
    var i := 0;
    while true
      invariant 0 <= i <= |access.elements|
      invariant values == access.elements[..i]
      decreases |access.elements| - i
    {
      var next := NextElement(access, i);
      match next
      case Err(e) =>
        return Err(e);
      case Ok(None) =>
        assert access.elements[..i] == access.elements;
        return Ok(values);
      case Ok(Some(v)) =>
        values := values + [v];
        i := i + 1;
    }
  }
}
