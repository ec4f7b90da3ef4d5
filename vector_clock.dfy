/**
 * Vector clocks: an owner id (1-based) and one logical counter per process.
 * Clocks are updated in place by local ticks and receive events, compared by
 * the happens-before rules of the package, and converted to and from
 * `Timestamp`s whose components are numbers written in some base.
 */
module Vector {
  import opened Wrappers
  import Numerals
  import Logical

  /** The errors the package reports, one constructor per distinct message. */
  datatype Error =
    | IdOutOfRange(id: int, length: int)
    | Unparsable(value: string, base: nat)
    | Uninitialized
    | LengthsDiffer(own: nat, other: nat)
    | Inconsistent
    | LengthMismatch(timestamp: nat, receptacle: nat)
    | AlreadyReceived
    | CounterAhead

  /** The state of a clock as sent in a message: its id and its components as text. */
  datatype Timestamp = Stamp(id: int, vector: seq<string>)
  {
    /**
     * A fresh clock holding the value of this timestamp, its components read
     * in `base`.  The id must name one of the components; the first component
     * that is not a natural number in `base` is reported, with the clock as
     * far as it was filled.
     */
    method ClockBase(base: nat) returns (clk: Clock?, err: Option<Error>)
      requires Numerals.ValidBase(base)
      ensures !(1 <= id <= |vector|) <==> clk == null
      ensures clk == null ==> err == Some(IdOutOfRange(id, |vector|))
      ensures clk != null ==> fresh(clk) && clk.id == id && |clk.vector| == |vector| && clk.Valid()
      ensures err.None? <==> Decode(this, base).Ok?
      ensures err.None? ==> clk.vector == Decode(this, base).value
      ensures err.Some? ==> err == Some(Decode(this, base).error)
    {
      if !(1 <= id <= |vector|) {
        return null, Some(IdOutOfRange(id, |vector|));
      }
      clk := new Clock.Of(id, Zeros(|vector|));
      var i := 0;
      while i < |vector|
        invariant 0 <= i <= |vector|
        invariant clk.id == id && |clk.vector| == |vector|
        invariant ParseComponents(vector[..i], base) == Ok(clk.vector[..i])
      {
        var parsed := Numerals.ParseNatural(vector[i], base);
        ParseStep(vector, i, base);
        if parsed.None? {
          ParseComponentsErrExtends(vector, i + 1, base);
          return clk, Some(Unparsable(vector[i], base));
        }
        UpdatePrefix(clk.vector, i, parsed.value);
        clk.vector := clk.vector[i := parsed.value];
        i := i + 1;
      }
      assert vector[..i] == vector && clk.vector[..i] == clk.vector;
      err := None;
    }

    /** The clock of a timestamp as carried in JSON, whose components are written in the largest base. */
    method Clock() returns (clk: Clock?, err: Option<Error>)
      ensures !(1 <= id <= |vector|) <==> clk == null
      ensures clk == null ==> err == Some(IdOutOfRange(id, |vector|))
      ensures clk != null ==> fresh(clk) && clk.id == id && |clk.vector| == |vector| && clk.Valid()
      ensures err.None? <==> Decode(this, Numerals.MaxBase).Ok?
      ensures err.None? ==> clk.vector == Decode(this, Numerals.MaxBase).value
      ensures err.Some? ==> err == Some(Decode(this, Numerals.MaxBase).error)
    {
      clk, err := ClockBase(Numerals.MaxBase);
    }
  }

  /** A message: its content and the timestamp of its send event.  Messages are handled by reference. */
  class Message {
    const content: string
    const timestamp: Timestamp

    constructor (content: string, timestamp: Timestamp)
      ensures this.content == content && this.timestamp == timestamp
    {
      this.content := content;
      this.timestamp := timestamp;
    }
  }

  /** The settings a zeroed clock is built from. */
  datatype ClockBuilder = ClockBuilder(id: int, length: int)
  {
    /** The builder with its length set to `n`; the id is kept. */
    function Length(n: int): (cb: ClockBuilder)
      ensures cb.length == n && cb.id == id
    {
      this.(length := n)
    }

    /** The builder with its id set to `i`; the length is kept. */
    function Id(i: int): (cb: ClockBuilder)
      ensures cb.id == i && cb.length == length
    {
      this.(id := i)
    }

    /**
     * A fresh clock of `length` zero components owned by process `id`, or an
     * error and no clock when `id` is not between 1 and `length`.
     */
    method Build() returns (clk: Clock?, err: Option<Error>)
      ensures err.None? <==> 1 <= id <= length
      ensures err.None? ==> clk != null && fresh(clk) && clk.id == id && clk.vector == Zeros(length) && clk.Valid()
      ensures err.Some? ==> clk == null && err == Some(IdOutOfRange(id, length))
    {
      if 1 <= id && id <= length {
        clk := new Clock.Of(id, Zeros(length));
        return clk, None;
      }
      return null, Some(IdOutOfRange(id, length));
    }
  }

  /** A builder with no settings yet: id 0 and length 0, which `Build` refuses until both are set. */
  function NewClockBuilder(): (cb: ClockBuilder)
    ensures cb.id == 0 && cb.length == 0
    ensures !(1 <= cb.id <= cb.length)
  {
    ClockBuilder(0, 0)
  }

  function Zeros(n: nat): seq<nat> {
    seq(n, _ => 0)
  }

  class Clock {
    var id: int
    var vector: seq<nat>

    /** Every clock with components names one of them as its owner's. */
    ghost predicate Valid()
      reads this
    {
      |vector| == 0 || 1 <= id <= |vector|
    }

    /** The zero value of the Go type: no owner, no components. */
    constructor ()
      ensures id == 0 && vector == [] && Valid()
    {
      id, vector := 0, [];
    }

    constructor Of(id: int, vector: seq<nat>)
      ensures this.id == id && this.vector == vector
    {
      this.id, this.vector := id, vector;
    }

    /** The owner's id, which names one of the components of a clock that has any. */
    function Id(): (i: int)
      reads this
      ensures i == id
      ensures Valid() && |vector| > 0 ==> 1 <= i <= Length()
    {
      id
    }

    /** The number of components; zero exactly for a clock that cannot be compared. */
    function Length(): (n: nat)
      reads this
      ensures n == |vector|
      ensures n == 0 <==> ErrComparableTo(this) == Some(Uninitialized)
    {
      |vector|
    }

    /** Why this clock cannot be compared with `other`: it has no components, or the lengths differ. */
    function ErrComparableTo(other: Clock): (err: Option<Error>)
      reads this, other
      ensures err.None? <==> |vector| > 0 && |other.vector| == |vector|
      ensures err == Some(Uninitialized) <==> |vector| == 0
    {
      if |vector| == 0 then Some(Uninitialized)
      else if |other.vector| != |vector| then Some(LengthsDiffer(|vector|, |other.vector|))
      else None
    }

    /**
     * The two clocks describe an impossible history: one of them has seen
     * more events of the other's owner than that owner itself.
     */
    predicate PairwiseInconsistent(other: Clock)
      reads this, other
      requires Valid() && other.Valid() && ErrComparableTo(other).None?
      ensures PairwiseInconsistent(other) ==> vector != other.vector
    {
      vector[id - 1] < other.vector[id - 1] || other.vector[other.id - 1] < vector[other.id - 1]
    }

    /**
     * Whether the event stamped with this clock happens before the one stamped
     * with `other`, looking only at the owners' components.
     */
    predicate LessThan(other: Clock)
      reads this, other
      requires Valid() && other.Valid()
      ensures LessThan(other) ==> ErrComparableTo(other).None?
    {
      if ErrComparableTo(other).Some? then false
      else if id == other.id then vector[id - 1] < other.vector[id - 1]
      else if PairwiseInconsistent(other) then false
      else vector[id - 1] <= other.vector[id - 1]
    }

    /** Whether the events stamped with the two clocks are concurrent. */
    predicate Concurrent(other: Clock)
      reads this, other
      requires Valid() && other.Valid()
      ensures Concurrent(other) ==> id != other.id && !LessThan(other) && !other.LessThan(this)
    {
      if id == other.id then false
      else if ErrComparableTo(other).Some? then false
      else if PairwiseInconsistent(other) then false
      else vector[id - 1] > other.vector[id - 1] && other.vector[other.id - 1] > vector[other.id - 1]
    }

    /**
     * Equality of clock values as the package writes it: after the length
     * checks, each component is compared with itself, so only the lengths
     * decide.
     */
    method Equal(other: Clock) returns (r: bool)
      ensures r <==> |vector| == |other.vector|
    {
      var clockLen, otherLen := |vector|, |other.vector|;
      if clockLen == 0 && clockLen == otherLen {
        return true;
      }
      if clockLen != otherLen {
        return false;
      }
      for i := 0 to clockLen {
        if Logical.Compare(vector[i], vector[i]) != 0 {
          return false;
        }
      }
      return true;
    }

    /** Equality of clock values as documented: same length and same components, ids ignored. */
    method SameValue(other: Clock) returns (r: bool)
      ensures r <==> vector == other.vector
    {
      var clockLen, otherLen := |vector|, |other.vector|;
      if clockLen == 0 && clockLen == otherLen {
        return true;
      }
      if clockLen != otherLen {
        return false;
      }
      for i := 0 to clockLen
        invariant vector[..i] == other.vector[..i]
      {
        if Logical.Compare(vector[i], other.vector[i]) != 0 {
          return false;
        }
        assert vector[..i + 1] == vector[..i] + [vector[i]];
        assert other.vector[..i + 1] == other.vector[..i] + [other.vector[i]];
      }
      assert vector[..clockLen] == vector && other.vector[..clockLen] == other.vector;
      return true;
    }

    /** Counts a local event: the owner's component goes up by one; a clock without components is left alone. */
    method TickLocal()
      requires Valid()
      modifies this
      ensures Valid() && id == old(id) && |vector| == |old(vector)|
      ensures |old(vector)| == 0 ==> vector == old(vector)
      ensures |old(vector)| > 0 ==> vector == old(vector)[id - 1 := old(vector)[id - 1] + 1]
    {
      if |vector| == 0 {
        return;
      }
      vector := vector[id - 1 := vector[id - 1] + 1];
    }

    /**
     * Counts a receive of a message stamped `other`: every component except
     * the owner's becomes the larger of the two.  When the clocks cannot be
     * compared or are pairwise inconsistent, an error is returned and nothing
     * changes.
     */
    method TickReceive(other: Clock) returns (err: Option<Error>)
      requires Valid() && other.Valid()
      modifies this
      ensures Valid() && id == old(id) && other.vector == old(other.vector)
      ensures err.Some? <==> old(ErrComparableTo(other).Some? || PairwiseInconsistent(other))
      ensures old(ErrComparableTo(other)).Some? ==> err == old(ErrComparableTo(other))
      ensures err.Some? ==> vector == old(vector)
      ensures err.None? ==> |vector| == |old(vector)|
      ensures err.None? ==> forall i | 0 <= i < |vector| ::
        vector[i] == if i == id - 1 then old(vector)[i] else Logical.Maximum(old(vector)[i], old(other.vector)[i])
    {
      err := ErrComparableTo(other);
      if err.Some? {
        return;
      }
      if PairwiseInconsistent(other) {
        return Some(Inconsistent);
      }
      var i := 0;
      while i < |vector|
        invariant 0 <= i <= |vector| == |old(vector)|
        invariant id == old(id)
        invariant this == other ==> vector == old(vector)
        invariant other.vector == old(other.vector)
        invariant forall j | 0 <= j < |vector| ::
          vector[j] == if j < i && j != id - 1 then Logical.Maximum(old(vector)[j], old(other.vector)[j]) else old(vector)[j]
      {
        if i != id - 1 {
          vector := vector[i := Logical.Maximum(vector[i], other.vector[i])];
        }
        i := i + 1;
      }
    }

    /**
     * Sets the clock from a timestamp carried in JSON, whose components are
     * written in the largest base.  A timestamp whose id names none of its
     * components is refused and the clock kept; otherwise the clock takes the
     * id and as many components as the timestamp, read up to the first that
     * is not a natural number.
     */
    method Unmarshal(ts: Timestamp) returns (err: Option<Error>)
      modifies this
      ensures !(1 <= ts.id <= |ts.vector|) ==> err == Some(IdOutOfRange(ts.id, |ts.vector|)) && id == old(id) && vector == old(vector)
      ensures 1 <= ts.id <= |ts.vector| ==> id == ts.id && |vector| == |ts.vector| && Valid()
      ensures err.None? <==> Decode(ts, Numerals.MaxBase).Ok?
      ensures err.None? ==> vector == Decode(ts, Numerals.MaxBase).value
      ensures err.Some? ==> err == Some(Decode(ts, Numerals.MaxBase).error)
    {
      if !(1 <= ts.id <= |ts.vector|) {
        return Some(IdOutOfRange(ts.id, |ts.vector|));
      }
      id, vector := ts.id, Zeros(|ts.vector|);
      var i := 0;
      while i < |ts.vector|
        invariant 0 <= i <= |ts.vector|
        invariant id == ts.id && |vector| == |ts.vector|
        invariant ParseComponents(ts.vector[..i], Numerals.MaxBase) == Ok(vector[..i])
      {
        var parsed := Numerals.ParseNatural(ts.vector[i], Numerals.MaxBase);
        ParseStep(ts.vector, i, Numerals.MaxBase);
        if parsed.None? {
          ParseComponentsErrExtends(ts.vector, i + 1, Numerals.MaxBase);
          return Some(Unparsable(ts.vector[i], Numerals.MaxBase));
        }
        UpdatePrefix(vector, i, parsed.value);
        vector := vector[i := parsed.value];
        i := i + 1;
      }
      assert ts.vector[..i] == ts.vector && vector[..i] == vector;
      err := None;
    }

    /** The timestamp of the clock's current value, its components written in `base`. */
    method Timestamp(base: nat) returns (ts: Timestamp)
      requires Numerals.ValidBase(base)
      ensures ts == Stamp(id, EncodeComponents(vector, base))
    {
      var texts: seq<string> := [];
      var i := 0;
      while i < |vector|
        invariant 0 <= i <= |vector|
        invariant texts == EncodeComponents(vector[..i], base)
      {
        texts := texts + [Numerals.Text(vector[i], base)];
        assert vector[..i + 1] == vector[..i] + [vector[i]];
        i := i + 1;
      }
      assert vector[..i] == vector;
      ts := Stamp(id, texts);
    }
  }

  /** The components of a clock written in `base`, in order. */
  function EncodeComponents(v: seq<nat>, base: nat): seq<string>
    requires Numerals.ValidBase(base)
  {
    seq(|v|, i requires 0 <= i < |v| => Numerals.Text(v[i], base))
  }

  lemma EncodeSnoc(v: seq<nat>, x: nat, base: nat)
    requires Numerals.ValidBase(base)
    ensures EncodeComponents(v + [x], base) == EncodeComponents(v, base) + [Numerals.Text(x, base)]
  {
  }

  /** The components a timestamp's texts denote, or the first one that is not a natural number. */
  function ParseComponents(texts: seq<string>, base: nat): Result<seq<nat>, Error>
    requires Numerals.ValidBase(base)
  {
    if texts == [] then Ok([])
    else
      match ParseComponents(texts[..|texts| - 1], base)
      case Err(e) => Err(e)
      case Ok(front) =>
        match Numerals.ParseNatural(texts[|texts| - 1], base)
        case None => Err(Unparsable(texts[|texts| - 1], base))
        case Some(n) => Ok(front + [n])
  }

  /** Setting element `i` extends the prefix before it by the new element. */
  lemma UpdatePrefix(s: seq<nat>, i: nat, x: nat)
    requires i < |s|
    ensures s[i := x][..i + 1] == s[..i] + [x]
  {
  }

  /** Parsing one more text: the first failure stays, otherwise the new component is appended. */
  lemma ParseStep(texts: seq<string>, i: nat, base: nat)
    requires Numerals.ValidBase(base) && i < |texts|
    ensures ParseComponents(texts[..i], base).Err? ==> ParseComponents(texts[..i + 1], base) == ParseComponents(texts[..i], base)
    ensures ParseComponents(texts[..i], base).Ok? && Numerals.ParseNatural(texts[i], base).None? ==>
      ParseComponents(texts[..i + 1], base) == Err(Unparsable(texts[i], base))
    ensures ParseComponents(texts[..i], base).Ok? && Numerals.ParseNatural(texts[i], base).Some? ==>
      ParseComponents(texts[..i + 1], base) == Ok(ParseComponents(texts[..i], base).value + [Numerals.ParseNatural(texts[i], base).value])
  {
    assert texts[..i + 1][..i] == texts[..i];
  }

  /** The clock value a timestamp denotes: its id must name a component and every component must parse. */
  function Decode(ts: Timestamp, base: nat): Result<seq<nat>, Error>
    requires Numerals.ValidBase(base)
  {
    if !(1 <= ts.id <= |ts.vector|) then Err(IdOutOfRange(ts.id, |ts.vector|))
    else ParseComponents(ts.vector, base)
  }

  /** An unparsable prefix makes the whole sequence unparsable, with the same error. */
  lemma {:induction false} ParseComponentsErrExtends(texts: seq<string>, k: nat, base: nat)
    requires Numerals.ValidBase(base) && k <= |texts|
    requires ParseComponents(texts[..k], base).Err?
    ensures ParseComponents(texts, base) == ParseComponents(texts[..k], base)
  {
    if k < |texts| {
      var front := texts[..|texts| - 1];
      assert front[..k] == texts[..k];
      ParseComponentsErrExtends(front, k, base);
    } else {
      assert texts[..k] == texts;
    }
  }

  /** Decoding what `EncodeComponents` wrote gives back the same components. */
  lemma {:induction false} ParseEncode(v: seq<nat>, base: nat)
    requires Numerals.ValidBase(base)
    ensures |EncodeComponents(v, base)| == |v|
    ensures ParseComponents(EncodeComponents(v, base), base) == Ok(v)
  {
    if v != [] {
      var front, last := v[..|v| - 1], v[|v| - 1];
      assert v == front + [last];
      EncodeSnoc(front, last, base);
      var texts := EncodeComponents(front, base) + [Numerals.Text(last, base)];
      ParseEncode(front, base);
      Numerals.ParseText(last, base);
      assert texts[..|texts| - 1] == EncodeComponents(front, base);
      assert ParseComponents(texts, base) == Ok(front + [last]);
    }
  }

  /**
   * The round trip of the package: a clock's `Timestamp` in any base, read back
   * with `ClockBase` in that base, gives the same id and components.
   */
  lemma DecodeTimestamp(id: int, v: seq<nat>, base: nat)
    requires Numerals.ValidBase(base) && 1 <= id <= |v|
    ensures Decode(Stamp(id, EncodeComponents(v, base)), base) == Ok(v)
  {
    ParseEncode(v, base);
  }

  /** strings.Join: the parts in order with `sep` between neighbours. */
  function Join(parts: seq<string>, sep: string): string {
    if |parts| == 0 then ""
    else if |parts| == 1 then parts[0]
    else parts[0] + sep + Join(parts[1..], sep)
  }

  /** Every part followed by `sep`, as a buffer holds them before the last part is written. */
  function Listing(parts: seq<string>, sep: string): string {
    if parts == [] then "" else parts[0] + sep + Listing(parts[1..], sep)
  }

  lemma {:induction false} ListingAppend(parts: seq<string>, x: string, sep: string)
    ensures Listing(parts + [x], sep) == Listing(parts, sep) + x + sep
  {
    if parts != [] {
      assert (parts + [x])[1..] == parts[1..] + [x];
      ListingAppend(parts[1..], x, sep);
    }
  }

  /** A join is the listing of all parts but the last, then the last part. */
  lemma {:induction false} JoinSplitLast(parts: seq<string>, sep: string)
    requires |parts| > 0
    ensures Join(parts, sep) == Listing(parts[..|parts| - 1], sep) + parts[|parts| - 1]
  {
    if |parts| > 1 {
      JoinSplitLast(parts[1..], sep);
      assert parts[..|parts| - 1][1..] == parts[1..][..|parts| - 2];
    }
  }

  /**
   * The text of a clock: "<nil>" for no clock, "[]" for a clock without
   * components, otherwise the components in base 10 separated by ", " and
   * enclosed in brackets.
   */
  method String(clk: Clock?) returns (s: string)
    ensures clk == null ==> s == "<nil>"
    ensures clk != null ==> s == "[" + Join(EncodeComponents(clk.vector, 10), ", ") + "]"
  {
    if clk == null {
      return "<nil>";
    }
    if clk.Length() == 0 {
      return "[]";
    }
    var n := clk.Length();
    var buffer := "[";
    var i := 0;
    while i < n - 1
      invariant 0 <= i <= n - 1
      invariant buffer == "[" + Listing(EncodeComponents(clk.vector[..i], 10), ", ")
    {
      var text := Numerals.Text(clk.vector[i], 10);
      StringStep(clk.vector, i, buffer);
      buffer := buffer + text + ", ";
      i := i + 1;
    }
    StringLast(clk.vector, buffer);
    buffer := buffer + Numerals.Text(clk.vector[n - 1], 10) + "]";
    s := buffer;
  }

  lemma StringStep(v: seq<nat>, i: nat, buffer: string)
    requires i < |v| && buffer == "[" + Listing(EncodeComponents(v[..i], 10), ", ")
    ensures buffer + Numerals.Text(v[i], 10) + ", " == "[" + Listing(EncodeComponents(v[..i + 1], 10), ", ")
  {
    assert v[..i + 1] == v[..i] + [v[i]];
    EncodeSnoc(v[..i], v[i], 10);
    ListingAppend(EncodeComponents(v[..i], 10), Numerals.Text(v[i], 10), ", ");
  }

  lemma StringLast(v: seq<nat>, buffer: string)
    requires |v| > 0 && buffer == "[" + Listing(EncodeComponents(v[..|v| - 1], 10), ", ")
    ensures buffer + Numerals.Text(v[|v| - 1], 10) + "]" == "[" + Join(EncodeComponents(v, 10), ", ") + "]"
  {
    var front, last := v[..|v| - 1], v[|v| - 1];
    var listed, text := Listing(EncodeComponents(front, 10), ", "), Numerals.Text(last, 10);
    assert v == front + [last];
    EncodeSnoc(front, last, 10);
    var parts := EncodeComponents(front, 10) + [text];
    assert parts[..|parts| - 1] == EncodeComponents(front, 10);
    JoinSplitLast(parts, ", ");
    assert Join(EncodeComponents(v, 10), ", ") == listed + text;
    assert buffer + text + "]" == "[" + (listed + text) + "]";
  }

  /**
   * A message whose timestamp is the sender's clock written in the largest
   * base; decoding that timestamp gives the clock back.
   */
  method NewMessage(content: string, clk: Clock) returns (msg: Message)
    ensures fresh(msg) && msg.content == content
    ensures msg.timestamp == Stamp(clk.id, EncodeComponents(clk.vector, Numerals.MaxBase))
    ensures clk.Valid() && |clk.vector| > 0 ==> Decode(msg.timestamp, Numerals.MaxBase) == Ok(clk.vector)
  {
    var ts := clk.Timestamp(Numerals.MaxBase);
    msg := new Message(content, ts);
    if 1 <= clk.id <= |clk.vector| {
      DecodeTimestamp(clk.id, clk.vector, Numerals.MaxBase);
    }
  }

  /**
   * The JSON round trip without the bytes: the timestamp a clock marshals to,
   * unmarshalled into any clock, gives that clock the same id and components.
   */
  method MarshalRoundTrip(clk: Clock, into: Clock) returns (err: Option<Error>)
    requires clk.Valid() && |clk.vector| > 0
    modifies into
    ensures err == None && into.id == old(clk.id) && into.vector == old(clk.vector)
  {
    var ts := clk.Timestamp(Numerals.MaxBase);
    DecodeTimestamp(clk.id, clk.vector, Numerals.MaxBase);
    err := into.Unmarshal(ts);
  }

  // Properties of the comparisons

  /** Comparability and pairwise inconsistency do not depend on the order of the two clocks. */
  lemma PairwiseInconsistentSymmetric(a: Clock, b: Clock)
    requires a.Valid() && b.Valid() && a.ErrComparableTo(b).None?
    ensures b.ErrComparableTo(a).None?
    ensures a.PairwiseInconsistent(b) == b.PairwiseInconsistent(a)
  {
  }

  /** Two clocks of one owner are pairwise inconsistent exactly when their owner's components differ. */
  lemma SameOwnerInconsistent(a: Clock, b: Clock)
    requires a.Valid() && b.Valid() && a.ErrComparableTo(b).None? && a.id == b.id
    ensures a.PairwiseInconsistent(b) <==> a.vector[a.id - 1] != b.vector[a.id - 1]
  {
  }

  /** No clock happens before itself. */
  lemma LessThanIrreflexive(a: Clock)
    requires a.Valid()
    ensures !a.LessThan(a)
  {
  }

  /** Between clocks of one owner, happens-before never holds both ways. */
  lemma LessThanSameOwnerAsymmetric(a: Clock, b: Clock)
    requires a.Valid() && b.Valid() && a.id == b.id
    ensures !(a.LessThan(b) && b.LessThan(a))
  {
  }

  /**
   * Between clocks of different owners, `a` happens before `b` exactly when
   * they are consistent and `b` has seen every event of `a`'s owner that `a`
   * has: consistency forbids `b` from having seen more.
   */
  lemma LessThanOtherOwner(a: Clock, b: Clock)
    requires a.Valid() && b.Valid() && a.id != b.id
    ensures a.LessThan(b) <==>
      a.ErrComparableTo(b).None? && !a.PairwiseInconsistent(b) && a.vector[a.id - 1] == b.vector[a.id - 1]
  {
  }

  /**
   * As written, `LessThan` is not asymmetric: two clocks of different owners
   * with equal components each happen before the other.
   */
  lemma LessThanBothWays(a: Clock, b: Clock)
    requires a.Valid() && b.Valid() && a.id != b.id && |a.vector| > 0 && a.vector == b.vector
    ensures a.LessThan(b) && b.LessThan(a)
  {
  }

  lemma ConcurrentSymmetric(a: Clock, b: Clock)
    requires a.Valid() && b.Valid()
    ensures a.Concurrent(b) == b.Concurrent(a)
  {
  }

  /**
   * For consistent clocks of different owners, concurrency is exactly the
   * absence of happens-before in both directions.
   */
  lemma ConcurrentIffUnordered(a: Clock, b: Clock)
    requires a.Valid() && b.Valid() && a.id != b.id
    requires a.ErrComparableTo(b).None? && !a.PairwiseInconsistent(b)
    ensures a.Concurrent(b) <==> !a.LessThan(b) && !b.LessThan(a)
  {
  }

  // The examples of the package's tests, replayed on the model

  method BuildScenarios() returns (tooLong: Option<Error>, zero: Option<Error>, clk: Clock?)
    ensures tooLong == Some(IdOutOfRange(2, 1)) && zero == Some(IdOutOfRange(0, 3))
    ensures clk != null && clk.id == 1 && clk.vector == [0, 0, 0]
  {
    var c1, e1 := NewClockBuilder().Id(2).Length(1).Build();
    var c2, e2 := NewClockBuilder().Length(3).Build();
    tooLong, zero := e1, e2;
    var e3;
    clk, e3 := NewClockBuilder().Id(1).Length(3).Build();
  }

  method StringScenarios() returns (nilText: string, emptyText: string, one: string, two: string)
    ensures nilText == "<nil>" && emptyText == "[]" && one == "[0]" && two == "[0, 0]"
  {
    nilText := String(null);
    var empty := new Clock();
    emptyText := String(empty);
    var c1, _ := NewClockBuilder().Length(1).Id(1).Build();
    one := String(c1);
    var c2, _ := NewClockBuilder().Length(2).Id(1).Build();
    two := String(c2);
    assert Numerals.Text(0, 10) == "0";
    assert EncodeComponents([0], 10) == ["0"];
    assert EncodeComponents([0, 0], 10) == ["0", "0"];
    assert Join(["0", "0"], ", ") == "0, 0";
  }

  /** A clock of five components ticked once reads [1, 0, 0, 0, 0] and marshals its components as "1", "0", "0", "0", "0". */
  method TickedStringScenario() returns (ticked: string, ts: Timestamp)
    ensures ticked == "[1, 0, 0, 0, 0]" && ts == Stamp(1, ["1", "0", "0", "0", "0"])
  {
    var c5, _ := NewClockBuilder().Id(1).Length(5).Build();
    c5.TickLocal();
    assert c5.vector == [1, 0, 0, 0, 0];
    ticked := String(c5);
    TickedText();
    ts := c5.Timestamp(Numerals.MaxBase);
    TickedComponents(Numerals.MaxBase);
  }

  /** Unmarshalling {"id":1,"v":["1","0","0","0","0"]} into a zero-value clock gives [1, 0, 0, 0, 0]. */
  method UnmarshalScenario() returns (err: Option<Error>, text: string)
    ensures err == None && text == "[1, 0, 0, 0, 0]"
  {
    var clk := new Clock();
    TickedComponents(Numerals.MaxBase);
    DecodeTimestamp(1, [1, 0, 0, 0, 0], Numerals.MaxBase);
    err := clk.Unmarshal(Stamp(1, ["1", "0", "0", "0", "0"]));
    text := String(clk);
    TickedText();
  }

  /** The components of [1, 0, 0, 0, 0] read the same in every base. */
  lemma TickedComponents(base: nat)
    requires Numerals.ValidBase(base)
    ensures EncodeComponents([1, 0, 0, 0, 0], base) == ["1", "0", "0", "0", "0"]
  {
    assert Numerals.Text(0, base) == "0" && Numerals.Text(1, base) == "1";
  }

  /** The text of the clock [1, 0, 0, 0, 0]. */
  lemma TickedText()
    ensures "[" + Join(EncodeComponents([1, 0, 0, 0, 0], 10), ", ") + "]" == "[1, 0, 0, 0, 0]"
  {
    TickedComponents(10);
    ZerosText();
    var parts := ["1", "0", "0", "0", "0"];
    assert parts[1..] == ["0", "0", "0", "0"];
    assert Join(parts, ", ") == "1" + ", " + "0, 0, 0, 0";
  }

  lemma ZerosText()
    ensures Join(["0", "0", "0", "0"], ", ") == "0, 0, 0, 0"
  {
    assert Join(["0", "0"], ", ") == "0, 0";
    assert Join(["0", "0", "0"], ", ") == "0, 0, 0";
  }

  method EqualScenarios() returns (bothEmpty: bool, lengthsDiffer: bool, idsDiffer: bool, differentValues: bool, sameValue: bool)
    ensures bothEmpty && !lengthsDiffer && idsDiffer
    ensures differentValues && !sameValue
  {
    var clk := new Clock();
    var other := new Clock();
    bothEmpty := clk.Equal(other);
    var a, _ := NewClockBuilder().Id(1).Length(3).Build();
    lengthsDiffer := a.Equal(other);
    var b, _ := NewClockBuilder().Id(2).Length(3).Build();
    idsDiffer := a.Equal(b);
    b.TickLocal();
    differentValues := a.Equal(b);
    sameValue := a.SameValue(b);
  }

  method ComparableScenarios() returns (bothEmpty: Option<Error>, lengthsDiffer: Option<Error>, idsDiffer: Option<Error>)
    ensures bothEmpty == Some(Uninitialized) && lengthsDiffer == Some(LengthsDiffer(3, 0)) && idsDiffer == None
  {
    var clk := new Clock();
    var other := new Clock();
    bothEmpty := clk.ErrComparableTo(other);
    var a, _ := NewClockBuilder().Id(1).Length(3).Build();
    lengthsDiffer := a.ErrComparableTo(other);
    var b, _ := NewClockBuilder().Id(2).Length(3).Build();
    idsDiffer := a.ErrComparableTo(b);
  }

  method LessThanScenarios() returns (fresh0: bool, afterTick: bool, reverse: bool, otherOwner: bool, otherReverse: bool)
    ensures !fresh0 && afterTick && !reverse && otherOwner && !otherReverse
  {
    var clk, _ := NewClockBuilder().Id(1).Length(3).Build();
    var other, _ := NewClockBuilder().Id(1).Length(3).Build();
    fresh0 := clk.LessThan(other);
    other.TickLocal();
    afterTick := clk.LessThan(other);
    reverse := other.LessThan(clk);
    var a, _ := NewClockBuilder().Id(1).Length(3).Build();
    var b, _ := NewClockBuilder().Id(2).Length(3).Build();
    b.TickLocal();
    otherOwner := a.LessThan(b);
    otherReverse := b.LessThan(a);
  }

  method ReceiveOrderScenario() returns (before: bool, beforeReverse: bool, concurrent: bool, after: bool, afterReverse: bool, bText: string)
    ensures !before && !beforeReverse && concurrent
    ensures after && !afterReverse && bText == "[1, 0, 1]"
  {
    var a, _ := NewClockBuilder().Id(1).Length(3).Build();
    var b, _ := NewClockBuilder().Id(3).Length(3).Build();
    a.TickLocal();
    b.TickLocal();
    before := a.LessThan(b);
    beforeReverse := b.LessThan(a);
    concurrent := a.Concurrent(b);
    var _ := b.TickReceive(a);
    after := a.LessThan(b);
    afterReverse := b.LessThan(a);
    bText := String(b);
    assert b.vector == [1, 0, 1];
    ReceivedText();
  }

  /** The text of the clock [1, 0, 1]. */
  lemma ReceivedText()
    ensures "[" + Join(EncodeComponents([1, 0, 1], 10), ", ") + "]" == "[1, 0, 1]"
  {
    assert Numerals.Text(0, 10) == "0" && Numerals.Text(1, 10) == "1";
    assert EncodeComponents([1, 0, 1], 10) == ["1", "0", "1"];
    assert Join(["0", "1"], ", ") == "0, 1";
    assert Join(["1", "0", "1"], ", ") == "1, 0, 1";
  }

  method TickReceiveScenario() returns (err1: Option<Error>, a1: seq<nat>, b1: seq<nat>, err2: Option<Error>, a2: seq<nat>, b2: seq<nat>)
    ensures err1 == None && a1 == [0, 1, 0, 0] && b1 == [0, 1, 0, 0]
    ensures err2 == None && a2 == [0, 1, 1, 0] && b2 == [0, 1, 1, 0]
  {
    var clkA, _ := NewClockBuilder().Id(2).Length(4).Build();
    var clkB, _ := NewClockBuilder().Id(3).Length(4).Build();
    clkA.TickLocal();
    err1 := clkB.TickReceive(clkA);
    a1, b1 := clkA.vector, clkB.vector;
    clkB.TickLocal();
    err2 := clkA.TickReceive(clkB);
    a2, b2 := clkA.vector, clkB.vector;
  }

  method ClockBaseScenario() returns (err: Option<Error>, v: seq<nat>)
    ensures err == None && v == [9, 10, 11, 12]
  {
    assert Numerals.Text(9, 10) == "9";
    assert Numerals.Text(1, 10) == "1" && Numerals.Text(10, 10) == "10";
    assert Numerals.Text(11, 10) == "11" && Numerals.Text(12, 10) == "12";
    assert EncodeComponents([9, 10, 11, 12], 10) == ["9", "10", "11", "12"];
    DecodeTimestamp(1, [9, 10, 11, 12], 10);
    var ts := Stamp(1, ["9", "10", "11", "12"]);
    var clk, e := ts.ClockBase(10);
    err := e;
    v := clk.vector;
  }

  method NewMessageScenario() returns (ts: Timestamp)
    ensures ts == Stamp(1, ["0"])
  {
    var clk, _ := NewClockBuilder().Id(1).Length(1).Build();
    var msg := NewMessage("hi, hello", clk);
    ts := msg.timestamp;
  }
}
