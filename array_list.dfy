/**
 * The hand-written growable list of ArrayList.java: an `elementData` buffer whose
 * first `size` slots hold the elements (any of which may be null), and its iterator.
 */
module Lists {
  import opened Wrappers

  /** Capacity of a list made by the no-argument constructor. */
  const DEFAULT_CAPACITY: nat := 50

  // ---------------------------------------------------------------------------
  // What each operation does to the buffer, as functions on sequences
  // ---------------------------------------------------------------------------

  /**
   * The buffer length after a request for at least `capacity` slots in a buffer of `len`:
   * unchanged if it is large enough, otherwise the larger of `capacity` and len + len/2 + 1.
   */
  function GrownLength(len: nat, capacity: int): (r: nat)
    ensures r >= len && r >= capacity
    ensures capacity <= len ==> r == len
    ensures capacity > len ==> r >= len + len / 2 + 1
    ensures capacity > len ==> r == capacity || r == len + len / 2 + 1
  {
    if capacity > len then
      var newCapacity := len + len / 2 + 1;
      if capacity > newCapacity then capacity else newCapacity
    else len
  }

  /** The buffer after `ensureCapacity(capacity)`: the old slots, padded with nulls as `Arrays.copyOf` does. */
  function Grown<T>(buf: seq<Option<T>>, capacity: int): (r: seq<Option<T>>)
    ensures |r| == GrownLength(|buf|, capacity)
    ensures r[..|buf|] == buf
    ensures forall i :: 0 <= i < |buf| ==> r[i] == buf[i]
    ensures forall i :: |buf| <= i < |r| ==> r[i] == None
  {
    buf + seq(GrownLength(|buf|, capacity) - |buf|, _ => None)
  }

  /** The buffer after inserting `value` at `index` into the `n` elements of `buf`: later ones move one right. */
  function Inserted<T>(buf: seq<T>, index: nat, n: nat, value: T): (r: seq<T>)
    requires index <= n < |buf|
    ensures |r| == |buf|
    ensures r[index] == value
    ensures forall k :: 0 <= k < index ==> r[k] == buf[k]
    ensures forall k :: index < k <= n ==> r[k] == buf[k - 1]
    ensures forall k :: n < k < |buf| ==> r[k] == buf[k]
  {
    buf[..index] + [value] + buf[index..n] + buf[n + 1..]
  }

  /** The buffer after removing the element at `index` from the `n` elements of `buf`: later ones move one left, slot n-1 is nulled. */
  function Removed<T>(buf: seq<Option<T>>, index: nat, n: nat): (r: seq<Option<T>>)
    requires index < n <= |buf|
    ensures |r| == |buf|
    ensures r[n - 1] == None
    ensures forall k :: 0 <= k < index ==> r[k] == buf[k]
    ensures forall k :: index <= k < n - 1 ==> r[k] == buf[k + 1]
    ensures forall k :: n <= k < |buf| ==> r[k] == buf[k]
  {
    buf[..index] + buf[index + 1..n] + [None] + buf[n..]
  }

  /** The buffer after nulling its first `n` slots. */
  function Cleared<T>(buf: seq<Option<T>>, n: nat): (r: seq<Option<T>>)
    requires n <= |buf|
    ensures |r| == |buf|
    ensures forall k :: 0 <= k < n ==> r[k] == None
    ensures forall k :: n <= k < |buf| ==> r[k] == buf[k]
  {
    seq(n, _ => None) + buf[n..]
  }

  /** The non-null entries of `s`, in their order in `s`. */
  function NonNulls<T>(s: seq<Option<T>>): (r: seq<Option<T>>)
    ensures |r| <= |s|
    ensures None !in r
  {
    if s == [] then []
    else NonNulls(s[..|s| - 1]) + (if s[|s| - 1] == None then [] else [s[|s| - 1]])
  }

  /**
   * The buffer `b` after the compacting loop of `compressNulls` has run over slots [0, m):
   * the non-nulls among them moved to the front, every other slot as it was.
   */
  function Compacted<T>(b: seq<Option<T>>, m: nat): (r: seq<Option<T>>)
    requires m <= |b|
    ensures |r| == |b|
  {
    var front := NonNulls(b[..m]);
    front + b[|front|..]
  }

  /** Compacted(b, m) starts with the non-nulls of b[..m] and has b's own slots after them. */
  lemma CompactedParts<T>(b: seq<Option<T>>, m: nat)
    requires m <= |b|
    ensures |NonNulls(b[..m])| <= m
    ensures Compacted(b, m)[..|NonNulls(b[..m])|] == NonNulls(b[..m])
    ensures forall k :: |NonNulls(b[..m])| <= k < |b| ==> Compacted(b, m)[k] == b[k]
  {
  }

  /** Every slot of `b` from `n` on is null. */
  ghost predicate NullFrom<T>(b: seq<Option<T>>, n: nat) {
    forall i :: n <= i < |b| ==> b[i] == None
  }

  /** What indexOf's loop has passed over: the first `k` elements are non-null and differ from `value`. */
  ghost predicate Scanned<T>(s: seq<Option<T>>, value: Option<T>, k: int)
    requires 0 <= k <= |s|
  {
    forall j :: 0 <= j < k ==> s[j].Some? && s[j] != value
  }

  /**
   * `r` is what `indexOf(value)` returns or throws for the elements `s`: the first index holding
   * an element equal to `value`, -1 when there is none, or NullPointerException when a null
   * element is reached first (Java calls `equals` on the element).
   */
  ghost predicate IsIndexOf<T>(s: seq<Option<T>>, value: Option<T>, r: Result<int>): (b: bool)
    ensures b && r.Ok? ==> -1 <= r.value < |s| && (r.value >= 0 ==> s[r.value] == value && value.Some?)
    ensures b && r.Ok? && r.value == -1 ==> value !in s
    ensures b && r.Err? ==> r.error == NullPointer && None in s
  {
    match r
    case Ok(i) =>
      (i == -1 && Scanned(s, value, |s|)) || (0 <= i < |s| && Scanned(s, value, i) && s[i].Some? && s[i] == value)
    case Err(e) =>
      e == NullPointer && exists k :: 0 <= k < |s| && Scanned(s, value, k) && s[k] == None
  }

  // ---------------------------------------------------------------------------
  // Lemmas about those functions
  // ---------------------------------------------------------------------------

  /** There is only one thing indexOf can return or throw. */
  lemma IndexOfUnique<T>(s: seq<Option<T>>, value: Option<T>, r1: Result<int>, r2: Result<int>)
    requires IsIndexOf(s, value, r1) && IsIndexOf(s, value, r2)
    ensures r1 == r2
  {
  }

  /** A returned index is non-negative exactly when `value` is an element. */
  lemma IndexOfFindsMember<T>(s: seq<Option<T>>, value: Option<T>, i: int)
    requires IsIndexOf(s, value, Ok(i))
    ensures i >= 0 <==> value in s
  {
  }

  /** A sequence without nulls is its own list of non-nulls. */
  lemma {:induction false} NonNullsOfNullFree<T>(s: seq<Option<T>>)
    requires None !in s
    ensures NonNulls(s) == s
  {
    if s != [] {
      assert None !in s[..|s| - 1];
      NonNullsOfNullFree(s[..|s| - 1]);
    }
  }

  /** NonNulls keeps every non-null entry, as often as it occurs, and drops every null. */
  lemma {:induction false} NonNullsMultiset<T>(s: seq<Option<T>>)
    ensures multiset(NonNulls(s)) == multiset(s)[None := 0]
  {
    if s != [] {
      var init, last := s[..|s| - 1], s[|s| - 1];
      assert s == init + [last];
      NonNullsMultiset(init);
    }
  }

  /** Extending the scanned prefix by one slot adds that slot to NonNulls if it is not null. */
  lemma NonNullsStep<T>(b: seq<Option<T>>, m: nat)
    requires m < |b|
    ensures NonNulls(b[..m + 1]) == NonNulls(b[..m]) + (if b[m] == None then [] else [b[m]])
  {
    assert b[..m + 1][..m] == b[..m];
  }

  /** The elements after an insertion into the grown buffer: the old elements with `value` at `index`. */
  lemma InsertedContents<T>(buf: seq<Option<T>>, index: nat, n: nat, value: Option<T>)
    requires index <= n <= |buf|
    ensures n < |Grown(buf, n + 1)|
    ensures Inserted(Grown(buf, n + 1), index, n, value)[..n + 1] == buf[..n][..index] + [value] + buf[..n][index..]
  {
    var g := Grown(buf, n + 1);
    assert g[..n] == buf[..n];
    assert Inserted(g, index, n, value)[..n + 1] == g[..index] + [value] + g[index..n];
  }

  /** An insertion into the grown buffer keeps the slots past the elements null. */
  lemma InsertedNullFrom<T>(buf: seq<Option<T>>, index: nat, n: nat, value: Option<T>)
    requires index <= n <= |buf| && NullFrom(buf, n)
    ensures n < |Grown(buf, n + 1)|
    ensures NullFrom(Inserted(Grown(buf, n + 1), index, n, value), n + 1)
  {
  }

  /** The elements after a removal: the old elements without the one at `index`. */
  lemma RemovedContents<T>(buf: seq<Option<T>>, index: nat, n: nat)
    requires index < n <= |buf|
    ensures Removed(buf, index, n)[..n - 1] == buf[..n][..index] + buf[..n][index + 1..]
  {
    assert Removed(buf, index, n)[..n - 1] == buf[..index] + buf[index + 1..n];
  }

  /** An appended element lands in the grown buffer's first free slot. */
  lemma AppendedContents<T>(buf: seq<Option<T>>, n: nat, value: Option<T>)
    requires n <= |buf|
    ensures n < |Grown(buf, n + 1)|
    ensures Grown(buf, n + 1)[n := value][..n + 1] == buf[..n] + [value]
    ensures NullFrom(buf, n) ==> NullFrom(Grown(buf, n + 1)[n := value], n + 1)
  {
    assert Grown(buf, n + 1)[n := value][..n + 1] == buf[..n] + [value];
  }

  /** A request that fits leaves the buffer as it is. */
  lemma GrownFits<T>(buf: seq<Option<T>>, capacity: int)
    requires capacity <= |buf|
    ensures Grown(buf, capacity) == buf
  {
    assert Grown(buf, capacity)[..|buf|] == buf;
  }

  /** Growth pads with nulls, so a null tail stays a null tail. */
  lemma GrownNullFrom<T>(buf: seq<Option<T>>, n: nat, capacity: int)
    requires NullFrom(buf, n)
    ensures NullFrom(Grown(buf, capacity), n)
  {
  }

  /** Storing into slot `n` leaves the slots after it alone. */
  lemma TailAfterStore<T>(b: seq<T>, g: seq<T>, n: nat, v: T)
    requires n < |b| == |g| && b[n..] == g[n..]
    ensures b[n := v][n + 1..] == g[n + 1..]
  {
    assert b[n := v][n + 1..] == b[n + 1..];
    assert b[n + 1..] == b[n..][1..];
  }

  /** Slots from `n` on that equal those of a null-tailed buffer from `m <= n` on make a null tail. */
  lemma NullTailFrom<T>(b: seq<Option<T>>, g: seq<Option<T>>, m: nat, n: nat)
    requires m <= n <= |b| == |g| && b[n..] == g[n..] && NullFrom(g, m)
    ensures NullFrom(b, n)
  {
    forall i | n <= i < |b|
      ensures b[i] == None
    {
      assert b[i] == b[n..][i - n];
    }
  }

  /** Appending the next element of `others` extends the copied slice by one. */
  lemma SliceStep<T>(start: seq<T>, others: seq<T>, p0: nat, p: nat)
    requires p0 <= p < |others|
    ensures start + others[p0..p] + [others[p]] == start + others[p0..p + 1]
  {
    assert others[p0..p + 1] == others[p0..p] + [others[p]];
  }

  // ---------------------------------------------------------------------------
  // The loops of ArrayList.java, on the buffer alone
  // ---------------------------------------------------------------------------

  /** The loop of `add(index, value)`: `for (i = n; i >= index + 1; i--) a[i] = a[i - 1]`. */
  method ShiftRight<T>(a: array<T>, index: nat, n: nat)
    requires index <= n < a.Length
    modifies a
    ensures a[..] == Inserted(old(a[..]), index, n, old(a[index]))
  {
    var i := n;
    while i >= index + 1
      invariant index <= i <= n
      invariant forall k :: 0 <= k <= i ==> a[k] == old(a[k])
      invariant forall k :: i < k <= n ==> a[k] == old(a[k - 1])
      invariant forall k :: n < k < a.Length ==> a[k] == old(a[k])
    {
      a[i] := a[i - 1];
      i := i - 1;
    }
  }

  /** The loop of `remove(index)` and its final store: `for (i = index; i < n - 1; i++) a[i] = a[i + 1]; a[n - 1] = null`. */
  method ShiftLeft<T>(a: array<Option<T>>, index: nat, n: nat)
    requires index < n <= a.Length
    modifies a
    ensures a[..] == Removed(old(a[..]), index, n)
  {
    var i := index;
    while i < n - 1
      invariant index <= i <= n - 1
      invariant forall k :: 0 <= k < index ==> a[k] == old(a[k])
      invariant forall k :: index <= k < i ==> a[k] == old(a[k + 1])
      invariant forall k :: i <= k < a.Length ==> a[k] == old(a[k])
    {
      a[i] := a[i + 1];
      i := i + 1;
    }
    a[n - 1] := None;
  }

  /** The loop of `clear()`: `for (i = 0; i < n; i++) a[i] = null`. */
  method NullOut<T>(a: array<Option<T>>, n: nat)
    requires n <= a.Length
    modifies a
    ensures a[..] == Cleared(old(a[..]), n)
  {
    var i := 0;
    while i < n
      invariant 0 <= i <= n
      invariant forall k :: 0 <= k < i ==> a[k] == None
      invariant forall k :: i <= k < a.Length ==> a[k] == old(a[k])
    {
      a[i] := None;
      i := i + 1;
    }
  }

  /** Nulls slots [from, to) of `a` and leaves the others alone. */
  method NullOutRange<T>(a: array<Option<T>>, from: nat, to: nat)
    requires from <= to <= a.Length
    modifies a
    ensures forall k :: from <= k < to ==> a[k] == None
    ensures forall k :: 0 <= k < a.Length && !(from <= k < to) ==> a[k] == old(a[k])
  {
    var j := from;
    while j < to
      invariant from <= j <= to
      invariant forall k :: from <= k < j ==> a[k] == None
      invariant forall k :: 0 <= k < a.Length && !(from <= k < j) ==> a[k] == old(a[k])
    {
      a[j] := None;
      j := j + 1;
    }
  }

  /**
   * The second loop of `compressNulls()`: from the slot after the first null (`first`) up to and
   * including slot `n`, every non-null moves down to `counter` and every null is counted.
   * Slot `n` does not exist when `n == a.Length`: the read throws after the earlier moves are done.
   */
  method MoveNonNullsDown<T>(a: array<Option<T>>, first: nat, n: nat) returns (counter: nat, counterNulls: nat, o: Outcome)
    requires first < n <= a.Length && a[first] == None && None !in a[..first]
    modifies a
    ensures o.Fail? <==> n == a.Length
    ensures o.Fail? ==> o.error == ArrayIndexOutOfBounds
    ensures o.Fail? ==> a[..] == Compacted(old(a[..]), n)
    ensures o.Pass? ==> a[..] == Compacted(old(a[..]), n + 1)
    ensures o.Pass? ==> counter + counterNulls == n + 1
    ensures o.Pass? ==> counter == |NonNulls(old(a[..])[..n + 1])|
  {
    ghost var b := a[..];
    counter := first;
    counterNulls := 1;
    CompactedNullFree(b, first);
    var elementPointer := first + 1;
    while elementPointer <= n
      invariant first + 1 <= elementPointer <= n + 1 && elementPointer <= a.Length
      invariant counter + counterNulls == elementPointer && counterNulls >= 1
      invariant counter == |NonNulls(old(a[..])[..elementPointer])|
      invariant a[..] == Compacted(b, elementPointer)
    {
      if elementPointer == a.Length {
        return counter, counterNulls, Fail(ArrayIndexOutOfBounds);
      }
      CompactedStep(b, elementPointer);
      if a[elementPointer] != None {
        CompactedParts(b, elementPointer);
        ghost var c := a[..];
        assert c[elementPointer] == b[elementPointer];
        a[counter] := a[elementPointer];
        assert a[..] == c[counter := b[elementPointer]];
        counter := counter + 1;
      } else {
        counterNulls := counterNulls + 1;
      }
      elementPointer := elementPointer + 1;
    }
    ghost var scanned := old(a[..])[..elementPointer];
    assert counter == |NonNulls(scanned)| && scanned == old(a[..])[..n + 1];
    o := Pass;
  }

  /** Before the second loop of compressNulls: a null-free prefix and then a null at `first` leave the buffer as it is. */
  lemma CompactedNullFree<T>(b: seq<Option<T>>, first: nat)
    requires first < |b| && b[first] == None && None !in b[..first]
    ensures |NonNulls(b[..first + 1])| == first
    ensures Compacted(b, first + 1) == b
  {
    NonNullsStep(b, first);
    NonNullsOfNullFree(b[..first]);
    assert b == b[..first] + b[first..];
  }

  /** One more slot of the compacting loop: a non-null in slot m moves to the first free slot; a null changes nothing. */
  lemma CompactedStep<T>(b: seq<Option<T>>, m: nat)
    requires m < |b|
    ensures |NonNulls(b[..m])| <= m
    ensures |NonNulls(b[..m + 1])| == |NonNulls(b[..m])| + (if b[m] == None then 0 else 1)
    ensures Compacted(b, m + 1) == if b[m] == None then Compacted(b, m) else Compacted(b, m)[|NonNulls(b[..m])| := b[m]]
  {
    NonNullsStep(b, m);
    var front := NonNulls(b[..m]);
    if b[m] != None {
      assert Compacted(b, m + 1) == front + [b[m]] + b[|front| + 1..];
      assert Compacted(b, m)[|front| := b[m]] == front + [b[m]] + b[|front| + 1..];
    }
  }

  // ---------------------------------------------------------------------------
  // The list
  // ---------------------------------------------------------------------------

  class ArrayList<E(==)> {
    var elementData: array<Option<E>>
    var size: nat

    ghost predicate Valid()
      reads this
    {
      size <= elementData.Length
    }

    /** The list's elements, in order. */
    function Contents(): seq<Option<E>>
      reads this, elementData
      requires Valid()
    {
      elementData[..size]
    }

    /** Every slot past the last element is null, as the constructor, `remove` and `clear` leave it. */
    ghost predicate NullTail()
      reads this, elementData
      requires Valid()
    {
      NullFrom(elementData[..], size)
    }

    /** `ArrayList(int capacity)` once the capacity has passed its check: an empty list over `capacity` null slots. */
    constructor (capacity: nat)
      ensures Valid() && fresh(elementData)
      ensures Contents() == [] && elementData.Length == capacity && NullTail()
    {
      elementData := new Option<E>[capacity](_ => None);
      size := 0;
    }

    /** `ArrayList()`: an empty list with the default capacity. */
    constructor Default()
      ensures Valid() && fresh(elementData)
      ensures Contents() == [] && elementData.Length == DEFAULT_CAPACITY && NullTail()
    {
      elementData := new Option<E>[DEFAULT_CAPACITY](_ => None);
      size := 0;
    }

    /** `ArrayList(int capacity)`, with its check: a negative capacity throws IllegalArgumentException. */
    static method WithCapacity(capacity: int) returns (r: Result<ArrayList<E>>)
      ensures r.Err? <==> capacity < 0
      ensures r.Err? ==> r.error == IllegalArgument
      ensures r.Ok? ==> fresh(r.value) && fresh(r.value.elementData) && r.value.Valid()
      ensures r.Ok? ==> r.value.Contents() == [] && r.value.elementData.Length == capacity && r.value.NullTail()
    {
      if capacity < 0 {
        return Err(IllegalArgument);
      }
      var list := new ArrayList<E>(capacity);
      return Ok(list);
    }

    /** `size()`. */
    function Size(): (r: nat)
      reads this, elementData
      requires Valid()
      ensures r == |Contents()|
    {
      size
    }

    /** `isEmpty()`. */
    function IsEmpty(): (r: bool)
      reads this, elementData
      requires Valid()
      ensures r <==> Contents() == []
    {
      size == 0
    }

    /** `checkIndex(index)`: throws IndexOutOfBoundsException unless `index` names an element. */
    function CheckIndex(index: int): (o: Outcome)
      reads this, elementData
      requires Valid()
      ensures o.Pass? <==> 0 <= index < |Contents()|
      ensures o.Fail? ==> o.error == IndexOutOfBounds
    {
      if index < 0 || index >= size then Fail(IndexOutOfBounds) else Pass
    }

    /** `get(index)`. */
    function Get(index: int): (r: Result<Option<E>>)
      reads this, elementData
      requires Valid()
      ensures 0 <= index < |Contents()| ==> r == Ok(Contents()[index])
      ensures !(0 <= index < |Contents()|) ==> r == Err(IndexOutOfBounds)
    {
      match CheckIndex(index)
      case Fail(e) => Err(e)
      case Pass => Ok(elementData[index])
    }

    /** `indexOf(value)`: the first match, -1, or NullPointerException at a null element met first. */
    method IndexOf(value: Option<E>) returns (r: Result<int>)
      requires Valid()
      ensures IsIndexOf(Contents(), value, r)
    {
      var i := 0;
      while i < size
        invariant 0 <= i <= size
        invariant Scanned(Contents(), value, i)
      {
        if elementData[i] == None {
          return Err(NullPointer);
        }
        if elementData[i] == value {
          return Ok(i);
        }
        i := i + 1;
      }
      return Ok(-1);
    }

    /** `contains(value)`: `indexOf(value) >= 0`, so it throws exactly when `indexOf` does. */
    method Contains(value: Option<E>) returns (r: Result<bool>)
      requires Valid()
      ensures r.Err? <==> IsIndexOf(Contents(), value, Err(NullPointer))
      ensures r.Err? ==> r.error == NullPointer
      ensures r.Ok? ==> (r.value <==> value in Contents())
    {
      var i := IndexOf(value);
      if i.Err? {
        return Err(i.error);
      }
      IndexOfFindsMember(Contents(), value, i.value);
      if IsIndexOf(Contents(), value, Err(NullPointer)) {
        IndexOfUnique(Contents(), value, i, Err(NullPointer));
      }
      return Ok(i.value >= 0);
    }

    /** `ensureCapacity(capacity)`: a larger buffer holding the old slots, when the request exceeds the length. */
    method EnsureCapacity(capacity: int)
      requires Valid()
      modifies this
      ensures Valid() && size == old(size)
      ensures elementData[..] == Grown(old(elementData[..]), capacity)
      ensures elementData.Length == GrownLength(old(elementData.Length), capacity)
      ensures Contents() == old(Contents())
      ensures capacity <= old(elementData.Length) ==> elementData == old(elementData)
      ensures capacity > old(elementData.Length) ==> fresh(elementData)
    {
      if capacity > elementData.Length {
        var newCapacity := elementData.Length + elementData.Length / 2 + 1;
        if capacity > newCapacity {
          newCapacity := capacity;
        }
        var src := elementData;
        elementData := new Option<E>[newCapacity](i reads src => if 0 <= i < src.Length then src[i] else None);
        assert elementData[..] == Grown(src[..], capacity);
        assert Contents() == src[..size];
      }
    }

    /** `add(value)`: appends `value`, growing the buffer when it is full. */
    method Add(value: Option<E>)
      requires Valid()
      modifies this, elementData
      ensures Valid()
      ensures Contents() == old(Contents()) + [value]
      ensures old(size) < |Grown(old(elementData[..]), old(size) + 1)|
      ensures elementData[..] == Grown(old(elementData[..]), old(size) + 1)[old(size) := value]
      ensures elementData.Length == GrownLength(old(elementData.Length), old(size) + 1)
      ensures old(size) < old(elementData.Length) ==> elementData == old(elementData)
      ensures old(size) >= old(elementData.Length) ==> fresh(elementData)
      ensures old(NullTail()) ==> NullTail()
    {
      EnsureCapacity(size + 1);
      elementData[size] := value;
      size := size + 1;
      AppendedContents(old(elementData[..]), old(size), value);
    }

    /**
     * `add(index, value)`: inserts `value` at `index`, shifting later elements right.
     * It checks `index` with checkIndex, so `index == size` is refused, even on an empty list.
     */
    method AddAt(index: int, value: Option<E>) returns (o: Outcome)
      requires Valid()
      modifies this, elementData
      ensures Valid()
      ensures o.Pass? <==> 0 <= index < old(size)
      ensures o.Fail? ==> o.error == IndexOutOfBounds && elementData == old(elementData) && size == old(size)
                          && elementData[..] == old(elementData[..])
      ensures o.Pass? ==> Contents() == old(Contents())[..index] + [value] + old(Contents())[index..]
      ensures o.Pass? ==> elementData[..] == Inserted(Grown(old(elementData[..]), old(size) + 1), index, old(size), value)
      ensures o.Pass? && old(size) < old(elementData.Length) ==> elementData == old(elementData)
      ensures old(NullTail()) ==> NullTail()
    {
      o := CheckIndex(index);
      if o.Fail? {
        return;
      }
      ghost var before := elementData[..];
      InsertAt(index, value);
      InsertedContents(before, index, size - 1, value);
      assert Contents() == elementData[..][..size];
      if old(NullTail()) {
        InsertedNullFrom(before, index, size - 1, value);
      }
    }

    /** What `add(index, value)` does once `index` has passed its check: grow if full, shift right, store. */
    method InsertAt(index: nat, value: Option<E>)
      requires Valid() && index < size
      modifies this, elementData
      ensures Valid() && size == old(size) + 1
      ensures elementData[..] == Inserted(Grown(old(elementData[..]), old(size) + 1), index, old(size), value)
      ensures old(size) < old(elementData.Length) ==> elementData == old(elementData)
    {
      ghost var before, n := elementData[..], size;
      EnsureCapacity(size + 1);
      ghost var g := elementData[..];
      assert g == Grown(before, n + 1);
      ShiftRight(elementData, index, size);
      elementData[index] := value;
      size := size + 1;
      assert elementData[..] == Inserted(g, index, n, value);
    }

    /** `remove(index)`: shifts the later elements left and nulls the vacated last slot. */
    method Remove(index: int) returns (o: Outcome)
      requires Valid()
      modifies this, elementData
      ensures Valid() && elementData == old(elementData)
      ensures o.Pass? <==> 0 <= index < old(size)
      ensures o.Fail? ==> o.error == IndexOutOfBounds && size == old(size) && elementData[..] == old(elementData[..])
      ensures o.Pass? ==> Contents() == old(Contents())[..index] + old(Contents())[index + 1..]
      ensures o.Pass? ==> size == old(size) - 1 && elementData[..] == Removed(old(elementData[..]), index, old(size))
      ensures old(NullTail()) ==> NullTail()
    {
      o := CheckIndex(index);
      if o.Fail? {
        return;
      }
      ShiftLeft(elementData, index, size);
      size := size - 1;
      RemovedContents(old(elementData[..]), index, old(size));
    }

    /** `set(index, value)`: replaces the element at `index` and nothing else. */
    method Set(index: int, value: Option<E>) returns (o: Outcome)
      requires Valid()
      modifies elementData
      ensures o.Pass? <==> 0 <= index < size
      ensures o.Fail? ==> o.error == IndexOutOfBounds && elementData[..] == old(elementData[..])
      ensures o.Pass? ==> elementData[..] == old(elementData[..])[index := value]
      ensures o.Pass? ==> Contents() == old(Contents())[index := value]
      ensures old(NullTail()) ==> NullTail()
    {
      o := CheckIndex(index);
      if o.Fail? {
        return;
      }
      elementData[index] := value;
    }

    /** `clear()`: nulls every element slot and empties the list. */
    method Clear()
      requires Valid()
      modifies this, elementData
      ensures Valid() && elementData == old(elementData)
      ensures Contents() == []
      ensures elementData[..] == Cleared(old(elementData[..]), old(size))
      ensures old(NullTail()) ==> NullTail()
    {
      NullOut(elementData, size);
      size := 0;
    }

    /** `iterator()`: a fresh iterator positioned before the first element. */
    method Iterator() returns (it: ArrayListIterator<E>)
      ensures fresh(it) && it.Valid()
      ensures it.list == this && it.position == 0 && !it.removeOK
    {
      it := new ArrayListIterator(this);
    }

    /**
     * `addAll(other)`: reserves room for both lists, then appends the elements of `other`
     * through its iterator. The iterator re-reads `other.size`, so on a non-empty list
     * `list.addAll(list)` never returns normally; only the empty self-append, a no-op, is modelled.
     */
    method AddAll(other: ArrayList<E>)
      requires Valid() && other.Valid()
      requires other != this || size == 0
      requires other != this ==> other.elementData != elementData
      modifies this, elementData
      ensures Valid()
      ensures other.Contents() == old(other.Contents())
      ensures Contents() == old(Contents()) + old(other.Contents())
      ensures elementData.Length == GrownLength(old(elementData.Length), old(size) + old(other.size))
      ensures elementData[..][size..] == Grown(old(elementData[..]), old(size) + old(other.size))[size..]
      ensures old(NullTail()) ==> NullTail()
    {
      if other == this {
        // ensureCapacity(0) keeps the buffer, and the iterator's first hasNext() is 0 < 0
        EnsureCapacity(size + other.size);
        var self := Iterator();
        assert !self.HasNext();
        GrownFits(old(elementData[..]), 0);
        return;
      }
      EnsureCapacity(size + other.size);
      ghost var g := elementData[..];
      var it := other.Iterator();
      AppendRest(it);
      assert old(other.Contents())[0..] == old(other.Contents());
      if old(NullTail()) {
        GrownNullFrom(old(elementData[..]), old(size), old(size) + old(other.size));
        NullTailFrom(elementData[..], g, old(size), size);
      }
    }

    /**
     * The loop of `addAll`: `for (E oneElement : other) add(oneElement)`, from the iterator's
     * current position to the end of its list, when the buffer already has room for all of them.
     */
    method AppendRest(it: ArrayListIterator<E>)
      requires Valid() && it.Valid() && it.list.Valid() && it.list != this && it.list.elementData != elementData
      requires it.position <= |it.list.Contents()|
      requires size + |it.list.Contents()| - it.position <= elementData.Length
      modifies this, elementData, it
      ensures Valid() && elementData == old(elementData)
      ensures it.list.Contents() == old(it.list.Contents())
      ensures Contents() == old(Contents()) + old(it.list.Contents())[old(it.position)..]
      ensures elementData[..][size..] == old(elementData[..])[size..]
    {
      ghost var b := elementData[..];
      ghost var start := Contents();
      ghost var others := it.list.Contents();
      ghost var p0 := it.position;
      while it.HasNext()
        invariant Valid() && it.Valid() && it.list.Valid() && elementData == old(elementData)
        invariant it.list.Contents() == others
        invariant p0 <= it.position <= |others|
        invariant size == |start| + it.position - p0 && size + |others| - it.position <= elementData.Length
        invariant Contents() == start + others[p0..it.position]
        invariant elementData[..][size..] == b[size..]
        decreases |others| - it.position
      {
        SliceStep(start, others, p0, it.position);
        TailAfterStore(elementData[..], b, size, others[it.position]);
        AddNext(it);
      }
    }

    /** The body of addAll's loop, `add(it.next())`, when the iterator has a next element and there is room for it. */
    method AddNext(it: ArrayListIterator<E>)
      requires Valid() && it.Valid() && it.list.Valid() && it.list != this && it.list.elementData != elementData
      requires it.position < |it.list.Contents()| && size < elementData.Length
      modifies this, elementData, it
      ensures Valid() && it.Valid() && it.list.Valid() && elementData == old(elementData)
      ensures Contents() == old(Contents()) + [it.list.Contents()[old(it.position)]]
      ensures elementData[..] == old(elementData[..])[old(size) := it.list.Contents()[old(it.position)]]
      ensures it.position == old(it.position) + 1
      ensures it.list.Contents() == old(it.list.Contents())
    {
      var next := it.Next();
      GrownFits(elementData[..], size + 1);
      Add(next.value);
    }

    /**
     * `compressNulls()`, as written. The first loop looks for the first null element and returns
     * when there is none. Java reads `elementData[0]` before comparing with `size`, so an empty
     * buffer throws. The second loop scans up to AND INCLUDING slot `size`: reading it throws
     * when the buffer is full, and a stale non-null there is moved in and counted. The slots
     * between the new and the old size keep what they held.
     */
    method CompressNulls() returns (o: Outcome)
      requires Valid()
      modifies this, elementData
      ensures Valid() && elementData == old(elementData)
      ensures o.Fail? <==> elementData.Length == 0 || (None in old(Contents()) && old(size) == elementData.Length)
      ensures o.Fail? ==> o.error == ArrayIndexOutOfBounds
      ensures None !in old(Contents()) ==> size == old(size) && elementData[..] == old(elementData[..])
      ensures None in old(Contents()) && o.Pass? ==>
                elementData[..] == Compacted(old(elementData[..]), old(size) + 1)
                && size == |NonNulls(old(elementData[..])[..old(size) + 1])|
      ensures None in old(Contents()) && o.Fail? ==>
                elementData[..] == Compacted(old(elementData[..]), old(size)) && size == old(size)
      ensures o.Pass? && old(size) < elementData.Length && old(elementData[size]) == None ==>
                Contents() == NonNulls(old(Contents()))
    {
      if elementData.Length == 0 {
        // Java evaluates elementData[0] before it compares the pointer with size.
        return Fail(ArrayIndexOutOfBounds);
      }
      var elementPointer := FirstNull(elementData, size);
      if elementPointer == size {
        assert elementData[..size] == elementData[..elementPointer];
        NonNullsOfNullFree(Contents());
        return Pass;
      }
      var counter, counterNulls;
      counter, counterNulls, o := MoveNonNullsDown(elementData, elementPointer, size);
      if o.Fail? {
        return;
      }
      size := size - counterNulls + 1;
      if old(elementData[size]) == None {
        NonNullsStep(old(elementData[..]), old(size));
        assert old(elementData[..])[..old(size)] == old(Contents());
      }
    }

    /**
     * The evident intent of compressNulls: the non-null elements, in order, at the front;
     * the vacated slots nulled; never reading past the last element.
     */
    method CompressNullsCorrected()
      requires Valid()
      modifies this, elementData
      ensures Valid() && elementData == old(elementData)
      ensures Contents() == NonNulls(old(Contents()))
      ensures forall k :: size <= k < old(size) ==> elementData[k] == None
      ensures forall k :: old(size) <= k < elementData.Length ==> elementData[k] == old(elementData[k])
      ensures old(NullTail()) ==> NullTail()
    {
      var counter := Compact(elementData, size);
      NullOutRange(elementData, counter, size);
      size := counter;
    }
  }

  /**
   * The first loop of `compressNulls()` on a non-empty buffer: the index of the first null
   * element, or `n` when there is none. Java tests `a[p] != null` before `p < n`, so when
   * n == 0 it reads slot 0 and stops there, which is reported as 0 == n.
   */
  method FirstNull<T>(a: array<Option<T>>, n: nat) returns (p: nat)
    requires 0 < a.Length && n <= a.Length
    ensures p <= n && None !in a[..p]
    ensures p < n ==> a[p] == None
  {
    p := 0;
    while a[p] != None && p < n
      invariant 0 <= p <= n && p < a.Length
      invariant p == 0 || p < n
      invariant None !in a[..p]
      decreases n - p
    {
      p := p + 1;
      if p >= n {
        return;
      }
    }
    if n == 0 {
      return 0;
    }
  }

  /** Moves the non-nulls among the first `n` slots of `a` to the front, in order; the rest is untouched. */
  method Compact<T>(a: array<Option<T>>, n: nat) returns (counter: nat)
    requires n <= a.Length
    modifies a
    ensures a[..] == Compacted(old(a[..]), n)
    ensures counter == |NonNulls(old(a[..n]))| && counter <= n
  {
    ghost var b := a[..];
    assert Compacted(b, 0) == b by { assert b[..0] == []; }
    counter := 0;
    var i := 0;
    while i < n
      invariant 0 <= i <= n
      invariant counter == |NonNulls(b[..i])|
      invariant a[..] == Compacted(b, i)
    {
      CompactedStep(b, i);
      if a[i] != None {
        a[counter] := a[i];
        counter := counter + 1;
      }
      i := i + 1;
    }
    assert b[..n] == old(a[..n]);
  }

  /**
   * `ArrayListIterator`, the list's inner iterator class: a cursor `position` and a flag
   * `removeOK` that permits one `remove()` after each `next()`.
   */
  class ArrayListIterator<E(==)> {
    const list: ArrayList<E>
    var position: int
    var removeOK: bool

    ghost predicate Valid()
      reads this
    {
      0 <= position && (removeOK ==> position >= 1)
    }

    constructor (list: ArrayList<E>)
      ensures Valid() && this.list == list && position == 0 && !removeOK
    {
      this.list := list;
      position := 0;
      removeOK := false;
    }

    /** `hasNext()`: whether an element lies at `position`, reading the list's current size. */
    function HasNext(): (r: bool)
      reads this, list, list.elementData
      requires list.Valid()
      ensures r <==> position < |list.Contents()|
    {
      position < list.Size()
    }

    /** `next()`: the element at `position`, then one step on; NoSuchElementException past the end. */
    method Next() returns (r: Result<Option<E>>)
      requires Valid() && list.Valid()
      modifies this
      ensures Valid()
      ensures old(position) < |list.Contents()| ==>
                r == Ok(list.Contents()[old(position)]) && position == old(position) + 1 && removeOK
      ensures old(position) >= |list.Contents()| ==>
                r == Err(NoSuchElement) && position == old(position) && removeOK == old(removeOK)
    {
      if !HasNext() {
        return Err(NoSuchElement);
      }
      r := Ok(list.elementData[position]);
      position := position + 1;
      removeOK := true;
    }

    /**
     * `remove()`: removes the element just returned by `next()`, at `position - 1`, and steps back.
     * IllegalStateException unless `next()` came since the last `remove()`; the list's own
     * IndexOutOfBoundsException if the list has since shrunk below `position`.
     */
    method Remove() returns (o: Outcome)
      requires Valid() && list.Valid()
      modifies this, list, list.elementData
      ensures Valid() && list.Valid() && list.elementData == old(list.elementData)
      ensures !old(removeOK) ==> o == Fail(IllegalState)
      ensures old(removeOK) && old(position) - 1 >= old(list.size) ==> o == Fail(IndexOutOfBounds)
      ensures o.Fail? ==> position == old(position) && removeOK == old(removeOK)
                          && list.size == old(list.size) && list.elementData[..] == old(list.elementData[..])
      ensures old(removeOK) && old(position) - 1 < old(list.size) ==>
                o == Pass && position == old(position) - 1 && !removeOK
                && list.Contents() == old(list.Contents())[..old(position) - 1] + old(list.Contents())[old(position)..]
                && list.size == old(list.size) - 1
                && list.elementData[..] == Removed(old(list.elementData[..]), old(position) - 1, old(list.size))
    {
      if !removeOK {
        return Fail(IllegalState);
      }
      o := list.Remove(position - 1);
      if o.Fail? {
        return;
      }
      position := position - 1;
      removeOK := false;
    }
  }

  // ---------------------------------------------------------------------------
  // Two inputs on which compressNulls does not do what its documentation says
  // ---------------------------------------------------------------------------

  /**
   * A list that is full and holds a null: compressNulls reads the slot past the end
   * and throws, where the intent is to drop the null.
   */
  method CompressFullListThrows() returns (o: Outcome)
    ensures o == Fail(ArrayIndexOutOfBounds)
  {
    var list := new ArrayList<int>(2);
    list.Add(Some(1));
    list.Add(None);
    assert None in list.Contents() by { assert list.Contents()[1] == None; }
    o := list.CompressNulls();
  }

  /** The non-nulls of the buffer behind CompressNullsRevivesStale, worked out slot by slot. */
  lemma StaleNonNulls()
    ensures NonNulls([Some(1), None, Some(3), None][..4]) == [Some(1), Some(3)]
    ensures NonNulls([Some(1), None, Some(3), None][..3]) == [Some(1), Some(3)]
  {
    var s: seq<Option<int>> := [Some(1), None, Some(3), None];
    assert NonNulls(s[..0]) == [] by { assert s[..0] == []; }
    NonNullsStep(s, 0);
    NonNullsStep(s, 1);
    NonNullsStep(s, 2);
    NonNullsStep(s, 3);
  }

  /** Both compressNulls calls of CompressNullsRevivesStale leave the same buffer: 1, 3, then a stale 3. */
  lemma StaleExample()
    ensures |NonNulls([Some(1), None, Some(3), None][..4])| == 2
    ensures |NonNulls([Some(1), None, Some(3), None][..3])| == 2
    ensures Compacted([Some(1), None, Some(3), None], 4) == [Some(1), Some(3), Some(3), None]
    ensures Compacted([Some(1), None, Some(3), None], 3) == [Some(1), Some(3), Some(3), None]
  {
    StaleNonNulls();
    var s: seq<Option<int>> := [Some(1), None, Some(3), None];
    assert s[2..] == [Some(3), None];
  }

  /** compressNulls on [1, null, 3] in a buffer of four: the list is [1, 3] and slot 2 keeps a stale 3. */
  method CompressLeavesStaleCopy() returns (list: ArrayList<int>)
    ensures fresh(list) && fresh(list.elementData) && list.Valid()
    ensures list.elementData[..] == [Some(1), Some(3), Some(3), None] && list.size == 2
  {
    StaleExample();
    list := new ArrayList<int>(4);
    list.Add(Some(1));
    list.Add(None);
    list.Add(Some(3));
    assert list.elementData[..] == [Some(1), None, Some(3), None];
    assert None in list.Contents() by { assert list.Contents()[1] == None; }
    var o := list.CompressNulls();
  }

  /**
   * compressNulls leaves a stale copy in the slot after the new last element; after that
   * slot's predecessor is set to null, a second compressNulls reads the stale slot and brings
   * its element back: the list becomes [1, 3] where the intent gives [1].
   */
  method CompressNullsRevivesStale() returns (before: seq<Option<int>>, after: seq<Option<int>>)
    ensures before == [Some(1), None]
    ensures after == [Some(1), Some(3)]
  {
    StaleExample();
    var list := CompressLeavesStaleCopy();
    var o := list.Set(1, None);
    before := list.Contents();
    assert list.elementData[..] == [Some(1), None, Some(3), None];
    assert None in list.Contents() by { assert list.Contents()[1] == None; }
    o := list.CompressNulls();
    after := list.Contents();
  }
}
