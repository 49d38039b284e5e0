/** Tuning trouble: the start of a packet (or message) is the first place
    where the last n characters of the datastream are pairwise distinct,
    and the answer is the number of characters read up to that place. */
module TuningTrouble {
  import opened Common

  /** No character occurs twice. */
  predicate AllDistinct(w: string)
  {
    forall a, b :: 0 <= a < b < |w| ==> w[a] != w[b]
  }

  /** The n characters before position p are pairwise distinct. */
  predicate SyncAt(line: string, n: nat, p: nat)
  {
    n <= p <= |line| && AllDistinct(line[p - n..p])
  }

  /** The first sync position from p on, or |line| when there is none. */
  function FirstFrom(line: string, n: nat, p: nat): nat
    decreases |line| + 1 - p
  {
    if p > |line| then |line|
    else if SyncAt(line, n, p) then p
    else FirstFrom(line, n, p + 1)
  }

  /** What find_sync prints. */
  function FirstSync(line: string, n: nat): nat
  {
    FirstFrom(line, n, n)
  }

  lemma {:induction false} FirstFromSpec(line: string, n: nat, p: nat)
    requires n <= p
    ensures var r := FirstFrom(line, n, p);
      (SyncAt(line, n, r) && p <= r && forall q :: p <= q < r ==> !SyncAt(line, n, q)) ||
      (r == |line| && forall q :: p <= q <= |line| ==> !SyncAt(line, n, q))
    decreases |line| + 1 - p
  {
    if p <= |line| && !SyncAt(line, n, p) {
      FirstFromSpec(line, n, p + 1);
    }
  }

  /** The answer is the first position whose last n characters are
      distinct; when there is none it is the length of the line. */
  lemma FirstSyncSpec(line: string, n: nat)
    ensures var r := FirstSync(line, n);
      (SyncAt(line, n, r) && forall q: nat :: q < r ==> !SyncAt(line, n, q)) ||
      (r == |line| && forall q: nat :: q <= |line| ==> !SyncAt(line, n, q))
  {
    FirstFromSpec(line, n, n);
  }

  // ------------------------------------------------------ the naive search

  /** The sync lambda of the naive version: the n characters ending at pos
      (inclusive) differ pairwise. */
  predicate NaiveSync(line: string, n: nat, pos: nat)
    requires n >= 1 && n - 1 <= pos < |line|
  {
    forall i, j :: 0 <= i < j < n ==> Back(line, pos, i) != Back(line, pos, j)
  }

  /** The character i places before pos. */
  function Back(line: string, pos: nat, i: nat): char
    requires i <= pos < |line|
  {
    line[pos - i]
  }

  /** The naive version's loop from pos on: pos + 1 at the first sync, or
      None when its assert pos < length fails. */
  function NaiveFrom(line: string, n: nat, pos: nat): Option<nat>
    requires n >= 1 && n - 1 <= pos
    decreases |line| - pos
  {
    if pos >= |line| then None
    else if NaiveSync(line, n, pos) then Some(pos + 1)
    else NaiveFrom(line, n, pos + 1)
  }

  lemma NaiveSyncIsSyncAt(line: string, n: nat, pos: nat)
    requires n >= 1 && n - 1 <= pos < |line|
    ensures NaiveSync(line, n, pos) <==> SyncAt(line, n, pos + 1)
  {
    var w := line[pos + 1 - n..pos + 1];
    if NaiveSync(line, n, pos) {
      forall a, b | 0 <= a < b < |w|
        ensures w[a] != w[b]
      {
        assert w[a] == Back(line, pos, n - 1 - a) && w[b] == Back(line, pos, n - 1 - b);
      }
    }
    if AllDistinct(w) {
      forall i, j | 0 <= i < j < n
        ensures Back(line, pos, i) != Back(line, pos, j)
      {
        assert line[pos - i] == w[n - 1 - i] && line[pos - j] == w[n - 1 - j];
      }
    }
  }

  lemma {:induction false} NaiveFromAgrees(line: string, n: nat, pos: nat)
    requires n >= 1 && n - 1 <= pos
    ensures NaiveFrom(line, n, pos).Some? ==> NaiveFrom(line, n, pos).value == FirstFrom(line, n, pos + 1)
    ensures NaiveFrom(line, n, pos).None? ==>
      FirstFrom(line, n, pos + 1) == |line| && forall q :: pos < q <= |line| ==> !SyncAt(line, n, q)
    decreases |line| - pos
  {
    if pos < |line| {
      NaiveSyncIsSyncAt(line, n, pos);
      if !NaiveSync(line, n, pos) {
        NaiveFromAgrees(line, n, pos + 1);
      }
    }
  }

  /** The set-based find_sync prints what the naive version prints when
      the naive version finds a sync, and the length of the line when its
      assert would fail. */
  lemma NaiveAgrees(line: string, n: nat)
    requires n >= 1
    ensures NaiveFrom(line, n, n - 1).Some? ==> NaiveFrom(line, n, n - 1).value == FirstSync(line, n)
    ensures NaiveFrom(line, n, n - 1).None? ==>
      FirstSync(line, n) == |line| && forall q: nat :: q <= |line| ==> !SyncAt(line, n, q)
  {
    NaiveFromAgrees(line, n, n - 1);
    FirstSyncSpec(line, n);
  }

  // ------------------------------------------------ the set-based search

  /** The distinct characters of a window. */
  function Chars(w: string): set<char>
  {
    set c | c in w
  }

  lemma {:induction false} CharsBound(w: string)
    ensures |Chars(w)| <= |w|
    ensures |Chars(w)| == |w| <==> AllDistinct(w)
    decreases |w|
  {
    if w != [] {
      var t := w[1..];
      CharsBound(t);
      if w[0] in t {
        assert Chars(w) == Chars(t);
        var k :| 0 <= k < |t| && t[k] == w[0];
        assert w[0] == w[k + 1];
      } else {
        assert Chars(w) == Chars(t) + {w[0]};
        if AllDistinct(t) {
          forall a, b | 0 <= a < b < |w|
            ensures w[a] != w[b]
          {
            if a == 0 {
              assert w[b] == t[b - 1];
            } else {
              assert w[a] == t[a - 1] && w[b] == t[b - 1];
            }
          }
        }
      }
      if AllDistinct(w) {
        forall a, b | 0 <= a < b < |t|
          ensures t[a] != t[b]
        {
          assert t[a] == w[a + 1] && t[b] == w[b + 1];
        }
      }
    } else {
      assert Chars(w) == {};
    }
  }

  /** A character is in a window iff it occurs a positive number of times. */
  lemma CharsCount(w: string, c: char)
    ensures c in Chars(w) <==> multiset(w)[c] > 0
  {
  }

  /** Dropping the first character of a window. */
  lemma DropStep(w: string)
    requires w != []
    ensures multiset(w[1..]) == multiset(w)[w[0] := multiset(w)[w[0]] - 1]
    ensures |Chars(w[1..])| == |Chars(w)| - (if multiset(w)[w[0]] == 1 then 1 else 0)
  {
    assert w == [w[0]] + w[1..];
    CharsCount(w[1..], w[0]);
    if multiset(w)[w[0]] == 1 {
      assert Chars(w[1..]) == Chars(w) - {w[0]};
    } else {
      assert Chars(w[1..]) == Chars(w);
    }
  }

  /** Adding a character at the end of a window. */
  lemma AddStep(w: string, x: char)
    ensures multiset(w + [x]) == multiset(w)[x := multiset(w)[x] + 1]
    ensures |Chars(w + [x])| == |Chars(w)| + (if multiset(w)[x] == 0 then 1 else 0)
  {
    CharsCount(w, x);
    if multiset(w)[x] == 0 {
      assert Chars(w + [x]) == Chars(w) + {x};
    } else {
      assert Chars(w + [x]) == Chars(w);
    }
  }

  /** The window before position i: at most n characters. */
  function Lo(i: nat, n: nat): nat
  {
    if i >= n then i - n else 0
  }

  /** Sliding the window one character on: the character leaving it is
      dropped, the one entering it added. */
  lemma SlideChars(line: string, n: nat, i: nat)
    requires i < |line| && n >= 1
    ensures var w := line[Lo(i, n)..i];
      var w' := line[Lo(i + 1, n)..i + 1];
      (i >= n ==> w != [] && w[0] == line[i - n] && w' == w[1..] + [line[i]]) &&
      (i < n ==> w' == w + [line[i]])
  {
    if i >= n {
      assert line[i - n..i][1..] == line[i + 1 - n..i];
      assert line[i + 1 - n..i + 1] == line[i + 1 - n..i] + [line[i]];
    } else {
      assert line[0..i + 1] == line[0..i] + [line[i]];
    }
  }

  /** While the window holds fewer than n distinct characters the search
      goes on past it. */
  lemma NotSyncStep(line: string, n: nat, i: nat)
    requires i < |line| && |Chars(line[Lo(i, n)..i])| < n
    ensures FirstFrom(line, n, Max(i, n)) == FirstFrom(line, n, Max(i + 1, n))
  {
    if i >= n {
      CharsBound(line[i - n..i]);
      assert !SyncAt(line, n, i);
      assert Max(i, n) == i && Max(i + 1, n) == i + 1;
    } else {
      assert Max(i, n) == n == Max(i + 1, n);
    }
  }

  /** Where the loop stops, the search stops too. */
  lemma StopSync(line: string, n: nat, i: nat)
    requires i <= |line| && |Chars(line[Lo(i, n)..i])| <= n
    requires i == |line| || |Chars(line[Lo(i, n)..i])| == n
    ensures FirstFrom(line, n, Max(i, n)) == i
  {
    CharsBound(line[Lo(i, n)..i]);
    if i >= n && |Chars(line[Lo(i, n)..i])| == n {
      assert SyncAt(line, n, i);
    } else if i >= n {
      assert !SyncAt(line, n, i);
    }
  }

  /** A character is ASCII, as the source's byte-indexed counting assumes. */
  predicate Ascii(line: string)
  {
    forall k :: 0 <= k < |line| ==> line[k] as int < 256
  }

  /** occurrences holds the count of every character of the window w. */
  ghost predicate Counts(occurrences: array<nat>, w: string)
    reads occurrences
  {
    occurrences.Length == 256 &&
    forall c :: 0 <= c < 256 ==> occurrences[c] == multiset(w)[c as char]
  }

  /** The decrement of find_sync for the character leaving the window;
      gone reports that its count dropped to zero. */
  method Forget(occurrences: array<nat>, ghost w: string, x: char) returns (gone: bool)
    requires w != [] && x == w[0] && x as int < 256 && Counts(occurrences, w)
    modifies occurrences
    ensures Counts(occurrences, w[1..])
    ensures gone <==> w[0] !in w[1..]
  {
    DropStep(w);
    CharsCount(w[1..], w[0]);
    var out := x as int;
    occurrences[out] := occurrences[out] - 1;
    gone := occurrences[out] == 0;
  }

  /** The increment of find_sync for the character entering the window;
      added reports that its count was zero. */
  method Remember(occurrences: array<nat>, ghost w: string, x: char) returns (added: bool)
    requires x as int < 256 && Counts(occurrences, w)
    modifies occurrences
    ensures Counts(occurrences, w + [x])
    ensures added <==> x !in w
  {
    AddStep(w, x);
    CharsCount(w, x);
    var c := x as int;
    added := occurrences[c] == 0;
    occurrences[c] := occurrences[c] + 1;
  }

  /** One pass of find_sync's loop body: the window slides past line[i]
      and num_unique follows the number of distinct characters in it. */
  method Slide(occurrences: array<nat>, line: string, n: nat, i: nat, numUnique: nat)
    returns (numUnique': nat)
    requires Ascii(line) && i < |line| && numUnique < n
    requires Counts(occurrences, line[Lo(i, n)..i]) && numUnique == |Chars(line[Lo(i, n)..i])|
    modifies occurrences
    ensures Counts(occurrences, line[Lo(i + 1, n)..i + 1])
    ensures numUnique' == |Chars(line[Lo(i + 1, n)..i + 1])| <= n
  {
    ghost var w := line[Lo(i, n)..i];
    ghost var next := line[Lo(i + 1, n)..i + 1];
    SlideChars(line, n, i);
    ghost var mid := w;
    numUnique' := numUnique;
    if i >= n {
      DropStep(w);
      CharsCount(w[1..], w[0]);
      var gone := Forget(occurrences, w, line[i - n]);
      mid := w[1..];
      if gone {
        numUnique' := numUnique' - 1;
      }
    }
    AddStep(mid, line[i]);
    CharsCount(mid, line[i]);
    var added := Remember(occurrences, mid, line[i]);
    if added {
      numUnique' := numUnique' + 1;
    }
    assert next == mid + [line[i]];
    CharsBound(next);
  }

  /** find_sync: occurrences counts the characters of the window of the
      last n characters read and num_unique the distinct ones; it stops
      one past the first window of n distinct characters. */
  method FindSync(line: string, n: nat) returns (answer: nat)
    requires Ascii(line)
    ensures answer == FirstSync(line, n)
  {
    var occurrences := new nat[256](_ => 0);
    var numUnique: nat := 0;
    var i := 0;
    while i < |line| && numUnique < n
      invariant i <= |line|
      invariant Counts(occurrences, line[Lo(i, n)..i])
      invariant numUnique == |Chars(line[Lo(i, n)..i])| <= n
      invariant FirstSync(line, n) == FirstFrom(line, n, Max(i, n))
      decreases |line| - i
    {
      NotSyncStep(line, n, i);
      numUnique := Slide(occurrences, line, n, i, numUnique);
      i := i + 1;
    }
    StopSync(line, n, i);
    answer := i;
  }
}
