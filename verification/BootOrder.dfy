/** The firmware's boot order in BootEncryption.cpp: EfiBoot::SetStartExec puts an entry
    into it and EfiBoot::DeleteStartExec takes it out, by shifting the array in place. */
module BootOrder {
  /** The order holds at most this many entries. */
  const ROOM: nat := 1024

  // ----- what becomes of an order -----

  /** Without the first occurrence of `num`. */
  function Without(order: seq<nat>, num: nat): seq<nat> {
    if order == [] then [] else if order[0] == num then order[1..] else [order[0]] + Without(order[1..], num)
  }

  /** The order after an entry has been set. */
  function With(order: seq<nat>, num: nat, first: bool): seq<nat> {
    if num !in order then (if first then [num] + order else order + [num])
    else if first && order[0] != num then [num] + Without(order, num)
    else order
  }

  /** An absent entry comes to the front or to the end, one that is wanted first is moved
      there, and otherwise nothing changes. */
  lemma WithIs(order: seq<nat>, num: nat, first: bool)
    ensures num !in order ==> With(order, num, first) == if first then [num] + order else order + [num]
    ensures num in order && (!first || order[0] == num) ==> With(order, num, first) == order
    ensures forall pos :: first && 0 <= pos < |order| && order[pos] == num && num !in order[..pos] ==>
              With(order, num, first) == [num] + order[..pos] + order[pos + 1..]
  {
    hide Without;
    forall pos | first && 0 <= pos < |order| && order[pos] == num && num !in order[..pos]
      ensures With(order, num, first) == [num] + order[..pos] + order[pos + 1..]
    {
      WithoutAt(order, num, pos);
      assert pos > 0 ==> order[0] == order[..pos][0];
    }
  }

  function Occurrences(order: seq<nat>, num: nat): nat { multiset(order)[num] }

  // ----- the array -----

  /** The place of the first occurrence, or `len`. */
  method Find(a: array<nat>, len: nat, num: nat) returns (pos: nat)
    requires len <= a.Length
    ensures pos <= len && num !in a[..pos] && (pos < len ==> a[pos] == num)
  {
    pos := 0;
    while pos < len && a[pos] != num
      invariant pos <= len && num !in a[..pos]
    {
      pos := pos + 1;
    }
  }

  lemma {:induction false} WithoutAt(order: seq<nat>, num: nat, pos: nat)
    requires pos < |order| && order[pos] == num && num !in order[..pos]
    ensures Without(order, num) == order[..pos] + order[pos + 1..]
  {
    if pos > 0 {
      assert order[0] == order[..pos][0];
      assert order[1..][..pos - 1] == order[..pos][1..];
      WithoutAt(order[1..], num, pos - 1);
    }
  }

  lemma {:induction false} WithoutAbsent(order: seq<nat>, num: nat)
    requires num !in order
    ensures Without(order, num) == order
  {
    if order != [] { WithoutAbsent(order[1..], num); }
  }

  /** Delete the entry by moving the later ones down (lines 3303-3319). */
  method Delete(a: array<nat>, len: nat, num: nat) returns (len': nat, found: bool)
    requires len <= a.Length
    modifies a
    ensures len' <= len && a[..len'] == Without(old(a[..len]), num)
    ensures found <==> num in old(a[..len])
  {
    hide Without;
    ghost var was := a[..len];
    var pos := Find(a, len, num);
    assert was[..pos] == a[..pos];
    if pos == len {
      assert was[..pos] == was;
      WithoutAbsent(was, num);
      return len, false;
    }
    WithoutAt(was, num, pos);
    var i := pos;
    while i < len - 1
      invariant pos <= i <= len - 1
      invariant forall k :: 0 <= k < pos ==> a[k] == was[k]
      invariant forall k :: pos <= k < i ==> a[k] == was[k + 1]
      invariant forall k :: i <= k < len ==> a[k] == was[k]
    {
      a[i] := a[i + 1];
      i := i + 1;
    }
    len', found := len - 1, true;
  }

  /** Enter the number if it is absent, at the front or at the end, and move it to the
      front if it is wanted there (lines 3497-3521). */
  method Enter(a: array<nat>, len: nat, num: nat, first: bool) returns (len': nat)
    requires len < a.Length
    modifies a
    ensures len' <= a.Length && a[..len'] == With(old(a[..len]), num, first)
  {
    hide Without;
    ghost var was := a[..len];
    var pos := Find(a, len, num);
    assert was[..pos] == a[..pos];
    len' := len;
    if pos == len {
      assert was[..pos] == was;
      if first {
        PutFirst(a, len, num);
      } else {
        a[len] := num;
      }
      len' := len + 1;
    } else if pos > 0 && first {
      assert was[0] == was[..pos][0];
      WithoutAt(was, num, pos);
      PutFirst(a, pos, num);
      assert a[..len] == a[..pos + 1] + a[pos + 1..len];
    } else {
      assert was[pos] == num;
      assert pos == 0 ==> was[0] == num;
    }
  }

  /** Put the number before the first `n` entries, over the entry behind them. */
  method PutFirst(a: array<nat>, n: nat, num: nat)
    requires n < a.Length
    modifies a
    ensures a[..n + 1] == [num] + old(a[..n]) && a[n + 1..] == old(a[n + 1..])
    ensures forall k :: n < k < a.Length ==> a[k] == old(a[k])
  {
    Raise(a, n);
    a[0] := num;
  }

  /** Move the first `n` entries up by one, last one first. */
  method Raise(a: array<nat>, n: nat)
    requires n < a.Length
    modifies a
    ensures forall k :: 1 <= k <= n ==> a[k] == old(a[k - 1])
    ensures forall k :: n < k < a.Length ==> a[k] == old(a[k])
  {
    var i := n;
    while i > 0
      invariant 0 <= i <= n
      invariant forall k :: 0 <= k <= i ==> a[k] == old(a[k])
      invariant forall k :: i < k <= n ==> a[k] == old(a[k - 1])
      invariant forall k :: n < k < a.Length ==> a[k] == old(a[k])
    {
      a[i] := a[i - 1];
      i := i - 1;
    }
  }

  // ----- what the two operations do to each other -----

  /** Deleting an entry that has been set gives back the order without it. */
  lemma DeletedAgain(order: seq<nat>, num: nat, first: bool)
    ensures Without(With(order, num, first), num) == Without(order, num)
  {
    if num !in order {
      WithoutAbsent(order, num);
      if !first { WithoutAt(order + [num], num, |order|); }
    } else if first && order[0] != num {
      assert ([num] + Without(order, num))[1..] == Without(order, num);
    }
  }

  /** Only the first occurrence goes: the entry is gone exactly if it occurred at most once. */
  lemma {:induction false} Gone(order: seq<nat>, num: nat)
    ensures num !in Without(order, num) <==> Occurrences(order, num) <= 1
    ensures multiset(Without(order, num)) == multiset(order) - multiset{num}
  {
    if order != [] {
      assert order == [order[0]] + order[1..];
      if order[0] == num {
        assert num in order[1..] <==> multiset(order[1..])[num] > 0;
      } else {
        Gone(order[1..], num);
        assert num in Without(order, num) <==> num in Without(order[1..], num);
      }
    }
  }

  /** Setting an entry keeps all others, in their order, and lists the entry once more
      only if it was absent. */
  lemma OthersKept(order: seq<nat>, num: nat, first: bool)
    ensures num in With(order, num, first)
    ensures Others(With(order, num, first), num) == Others(order, num)
    ensures multiset(With(order, num, first)) == multiset(order) + (if num in order then multiset{} else multiset{num})
    ensures first ==> With(order, num, first)[0] == num
  {
    SetOthers(order, num, first);
    SetMultiset(order, num, first);
  }

  lemma SetOthers(order: seq<nat>, num: nat, first: bool)
    ensures Others(With(order, num, first), num) == Others(order, num)
  {
    if num !in order {
      if first { assert ([num] + order)[1..] == order; } else { OthersAppend(order, num); }
    } else if first && order[0] != num {
      assert ([num] + Without(order, num))[1..] == Without(order, num);
      OthersWithout(order, num);
    }
  }

  lemma SetMultiset(order: seq<nat>, num: nat, first: bool)
    ensures multiset(With(order, num, first)) == multiset(order) + (if num in order then multiset{} else multiset{num})
  {
    hide Without;
    Gone(order, num);
    if num in order && first && order[0] != num {
      assert multiset(With(order, num, first)) == multiset{num} + multiset(Without(order, num));
      assert num in multiset(order);
    }
  }

  lemma WithLength(order: seq<nat>, num: nat, first: bool)
    ensures |With(order, num, first)| <= |order| + 1
  {
    OthersKept(order, num, first);
    assert |multiset(With(order, num, first))| <= |multiset(order)| + 1;
  }

  /** The other entries. */
  function Others(order: seq<nat>, num: nat): seq<nat> {
    if order == [] then [] else (if order[0] == num then [] else [order[0]]) + Others(order[1..], num)
  }

  lemma {:induction false} OthersAppend(order: seq<nat>, num: nat)
    ensures Others(order + [num], num) == Others(order, num)
  {
    if order == [] {
      assert [num][1..] == [];
    } else {
      OthersAppend(order[1..], num);
      assert (order + [num])[1..] == order[1..] + [num];
    }
  }

  lemma {:induction false} OthersWithout(order: seq<nat>, num: nat)
    ensures Others(Without(order, num), num) == Others(order, num)
  {
    if order != [] && order[0] != num {
      OthersWithout(order[1..], num);
      assert Without(order, num)[1..] == Without(order[1..], num);
    }
  }

  // ----- the firmware's variables -----

  datatype Kind = Boot | Driver

  datatype Option<T> = None | Some(value: T)

  /** The entries of one kind, their order, and the one to use next time only. An empty
      order is one that is not defined. */
  datatype Variables = Variables(entries: map<nat, string>, order: seq<nat>, next: Option<nat>)

  datatype Answer = Thrown | Returned(done: bool)

  /** What deleting entry `num` completely leaves. */
  function Cleaned(v: Variables, num: nat): Variables {
    Variables(v.entries - {num}, Without(v.order, num), if num in v.order && v.next == Some(num) then None else v.next)
  }

  /** What a call that reports success leaves. It does not report that the entry for the
      next time could not be read, and then keeps it (lines 3330-3332). */
  function Deleted(v: Variables, num: nat, readable: bool): Variables {
    if readable then Cleaned(v, num) else Cleaned(v, num).(next := v.next)
  }

  /** It is the complete deletion exactly if that entry can be read, or there is nothing
      to do about it. */
  predicate Complete(v: Variables, num: nat, readable: bool) { readable || num !in v.order || v.next != Some(num) }

  /** Something names the entry, or it is still there. */
  predicate Named(v: Variables, num: nat) { num in v.entries || num in v.order || v.next == Some(num) }

  /** Deleting an entry leaves nothing of it exactly if it is listed not more than once,
      and if it is to come up next time, that can be read and the entry is listed at all. */
  lemma NothingNamed(v: Variables, num: nat, readable: bool)
    ensures !Named(Deleted(v, num, readable), num) <==>
            Occurrences(v.order, num) <= 1 && (v.next == Some(num) ==> readable && num in v.order)
  {
    Gone(v.order, num);
  }

  /** How a call of SetStartExec leaves the variables if the firmware does not fail. */
  function Entered(v: Variables, num: nat, load: string, windows: string -> bool, device: bool,
                   setEntry: bool, forceFirst: bool, setNext: bool): Variables {
    Variables(if device then v.entries[num := load] else v.entries,
              if setEntry && (device || num in v.order)
              then With(v.order, num, forceFirst && WindowsFirst(v, num, windows)) else v.order,
              if setNext then Some(num) else v.next)
  }

  /** The entry starts `load`, it is listed if there is one, first if that is wanted and
      another entry of at most 512 bytes for the Windows loader is first, and comes up next
      time if that is wanted. */
  lemma EnteredIs(v: Variables, num: nat, load: string, windows: string -> bool, device: bool,
                  setEntry: bool, forceFirst: bool, setNext: bool)
    ensures var e := Entered(v, num, load, windows, device, setEntry, forceFirst, setNext);
            var first := forceFirst && v.order != [] && v.order[0] in v.entries && |v.entries[v.order[0]]| <= 512
                         && windows(v.entries[v.order[0]]);
            && (forall k :: k != num ==> (k in e.entries <==> k in v.entries) && (k in v.entries ==> e.entries[k] == v.entries[k]))
            && (if device then num in e.entries && e.entries[num] == load else e.entries == v.entries)
            && e.next == (if setNext then Some(num) else v.next)
            && (!setEntry || (!device && num !in v.order) ==> e.order == v.order)
            && (setEntry && device && num !in v.order ==> e.order == if first then [num] + v.order else v.order + [num])
            && (num in v.order && (!first || v.order[0] == num) ==> e.order == v.order)
            && (setEntry && first ==>
                  forall pos :: 0 <= pos < |v.order| && v.order[pos] == num && num !in v.order[..pos] ==>
                    e.order == [num] + v.order[..pos] + v.order[pos + 1..])
  {
    hide With;
    WithIs(v.order, num, forceFirst && WindowsFirst(v, num, windows));
    assert forall pos :: 0 < pos <= |v.order| ==> v.order[0] == v.order[..pos][0];
    WithIs(v.order, num, false);
  }

  /** Setting an entry and deleting it. Whether it is listed in between, and whether the
      entry for the next time can be read, decides what becomes of that. */
  lemma EnteredDeleted(v: Variables, num: nat, load: string, windows: string -> bool, device: bool,
                       setEntry: bool, forceFirst: bool, setNext: bool, readable: bool)
    ensures var cleared := readable && (num in v.order || (setEntry && device));
            Deleted(Entered(v, num, load, windows, device, setEntry, forceFirst, setNext), num, readable) ==
            Variables(v.entries - {num}, Without(v.order, num),
                      if setNext then (if cleared then None else Some(num)) else if cleared && v.next == Some(num) then None else v.next)
  {
    var first := forceFirst && WindowsFirst(v, num, windows);
    DeletedAgain(v.order, num, first);
    OthersKept(v.order, num, first);
  }

  /** Nothing is left of the entry exactly if it was listed at most once before, and if it
      is to come up next time, that can be read and the entry is listed in between. */
  lemma NothingLeft(v: Variables, num: nat, load: string, windows: string -> bool, device: bool,
                    setEntry: bool, forceFirst: bool, setNext: bool, readable: bool)
    ensures !Named(Deleted(Entered(v, num, load, windows, device, setEntry, forceFirst, setNext), num, readable), num) <==>
            Occurrences(v.order, num) <= 1
            && (setNext || v.next == Some(num) ==> readable && (num in v.order || (setEntry && device)))
  {
    EnteredDeleted(v, num, load, windows, device, setEntry, forceFirst, setNext, readable);
    Gone(v.order, num);
  }

  /** Whether another entry comes first and starts the Windows loader, as far as the
      program can see. */
  function WindowsFirst(v: Variables, num: nat, windows: string -> bool): bool {
    v.order != [] && v.order[0] != num && v.order[0] in v.entries
    && |v.entries[v.order[0]]| <= 512 && windows(v.entries[v.order[0]])
  }

  class Firmware {
    /** Whether operations may fail, whether the machine has EFI firmware and whether the
        program may use it. */
    const faulty: bool
    const efi: bool
    const privileged: bool

    var vars: map<Kind, Variables>

    predicate Valid()
      reads this
    {
      Boot in vars && Driver in vars
    }

    /** EfiBoot::DeleteStartExec (lines 3267-3347). Every failure makes the answer false,
        except that of reading the entry for the next time, which works if `readable`. */
    method DeleteStartExec(num: nat, kind: Kind, readable: bool) returns (r: Answer)
      requires Valid()
      modifies `vars
      ensures Valid() && forall k :: k in vars <==> k in old(vars)
      ensures forall k :: k in vars && k != kind ==> vars[k] == old(vars[k])
      ensures r.Thrown? ==> vars == old(vars)
      ensures r.Thrown? <==> !privileged || !efi
      ensures r == Returned(true) ==> vars[kind] == Deleted(old(vars[kind]), num, readable)
      ensures r == Returned(true) ==>
                (vars[kind] == Cleaned(old(vars[kind]), num) <==> Complete(old(vars[kind]), num, readable))
      ensures !faulty && privileged && efi && |old(vars[kind]).order| <= 1024 ==> r == Returned(true)
    {
      if !privileged || !efi { return Thrown; }
      var done := true;
      var fails: bool := *;
      if faulty && fails {
        done := false;
      } else {
        vars := vars[kind := vars[kind].(entries := vars[kind].entries - {num})];
      }
      var a := new nat[ROOM];
      var len := 0;
      fails := *;
      if (faulty && fails) || |vars[kind].order| > ROOM {
        done := false;
      } else {
        len := Load(a, vars[kind].order);
      }
      var len', found := Delete(a, len, num);
      if num !in vars[kind].order { WithoutAbsent(vars[kind].order, num); }
      if found {
        fails := *;
        if faulty && fails {
          done := false;
        } else {
          vars := vars[kind := vars[kind].(order := a[..len'])];
        }
        if readable && vars[kind].next == Some(num) {
          fails := *;
          if faulty && fails {
            done := false;
          } else {
            vars := vars[kind := vars[kind].(next := None)];
          }
        }
      }
      r := Returned(done);
    }

    /** Read an order into the program's buffer. */
    method Load(a: array<nat>, order: seq<nat>) returns (len: nat)
      requires |order| <= a.Length
      modifies a
      ensures len == |order| && a[..len] == order
    {
      len := 0;
      while len < |order|
        invariant len <= |order| && a[..len] == order[..len]
      {
        a[len] := order[len];
        len := len + 1;
      }
    }

    /** The order with the entry in it (lines 3461-3526). */
    method EnterInOrder(num: nat, kind: Kind, windows: string -> bool, device: bool, forceFirst: bool)
      requires Valid() && |vars[kind].order| < ROOM
      modifies `vars
      ensures Valid() && forall k :: k in vars <==> k in old(vars)
      ensures forall k :: k in vars && k != kind ==> vars[k] == old(vars[k])
      ensures vars[kind] == old(vars[kind]).(order := vars[kind].order)
      ensures |vars[kind].order| <= |old(vars[kind]).order| + 1
      ensures !faulty ==>
                var v := old(vars[kind]);
                vars[kind].order == if device || num in v.order
                                    then With(v.order, num, forceFirst && WindowsFirst(v, num, windows)) else v.order
    {
      var a := new nat[ROOM];
      var len := 0;
      var fails: bool := *;
      if !(faulty && fails) { len := Load(a, vars[kind].order); }
      var pos := Find(a, len, num);
      var first := false;
      fails := *;
      if forceFirst && pos != 0 && len > 0 && !(faulty && fails) { first := WindowsFirst(vars[kind].(order := a[..len]), num, windows); }
      if device || pos < len {
        WithLength(a[..len], num, first);
        len := Enter(a, len, num, first);
        fails := *;
        if !(faulty && fails) {
          vars := vars[kind := vars[kind].(order := a[..len])];
        }
      }
    }

    /** EfiBoot::SetStartExec (lines 3349-3539). `load` is the encoded load option, and
        `device` tells if the boot partition is known. */
    method SetStartExec(num: nat, kind: Kind, load: string, windows: string -> bool, device: bool,
                        setEntry: bool, forceFirst: bool, setNext: bool) returns (r: Answer)
      requires Valid() && |vars[kind].order| < ROOM
      modifies `vars
      ensures Valid() && forall k :: k in vars <==> k in old(vars)
      ensures forall k :: k in vars && k != kind ==> vars[k] == old(vars[k])
      ensures r.Thrown? <==> !privileged || !efi
      ensures r.Thrown? ==> vars == old(vars)
      ensures |vars[kind].order| <= |old(vars[kind]).order| + 1
      ensures r.Returned? && !faulty ==>
                vars[kind] == Entered(old(vars[kind]), num, load, windows, device, setEntry, forceFirst, setNext)
    {
      if !privileged || !efi { return Thrown; }
      var fails: bool := *;
      if device && !(faulty && fails) {
        vars := vars[kind := vars[kind].(entries := vars[kind].entries[num := load])];
      }
      if setEntry { EnterInOrder(num, kind, windows, device, forceFirst); }
      if setNext {
        fails := *;
        if !(faulty && fails) {
          vars := vars[kind := vars[kind].(next := Some(num))];
        }
      }
      r := Returned(true);
    }
  }
}
