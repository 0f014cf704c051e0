/** Pseudonyms of an anonymous room: a role and the seat's ordinal among the seats of that role. */
module Aliases {
  import opened Prelude
  import opened Rooms

  function Decimal(n: nat): (r: string)
    ensures |r| > 0 && '#' !in r
  {
    (if n < 10 then "" else Decimal(n / 10)) + [Digit(n % 10)]
  }

  function Digit(d: nat): (c: char)
    requires d < 10
    ensures c != '#' && c != '\n'
  {
    ('0' as int + d) as char
  }

  function Alias(role: string, ordinal: nat): string {
    role + " #" + Decimal(ordinal)
  }

  function RoleCount(seats: seq<Seat>, role: string): nat {
    if seats == [] then 0
    else RoleCount(seats[..|seats| - 1], role) + if seats[|seats| - 1].role == role then 1 else 0
  }

  /** `mintAlias`: every seat ever admitted with the role counts, removed ones included. */
  function MintAlias(seated: seq<Seat>, role: string): string {
    Alias(role, RoleCount(seated, role) + 1)
  }

  /** Every seat carries the alias of its role and of its ordinal among the seats of that role. */
  ghost predicate AliasesMinted(seats: seq<Seat>) {
    forall k :: 0 <= k < |seats| ==> seats[k].alias == Some(Alias(seats[k].role, RoleCount(seats[..k + 1], seats[k].role)))
  }

  lemma {:induction false} DecimalInjective(a: nat, b: nat)
    requires Decimal(a) == Decimal(b)
    ensures a == b
  {
    LastDigit(a);
    LastDigit(b);
    if a >= 10 && b >= 10 {
      DecimalInjective(a / 10, b / 10);
    }
  }

  lemma {:induction false} LastDigit(n: nat)
    ensures var text := Decimal(n); var last := |text| - 1;
      && text[last] as int - '0' as int == n % 10
      && text[..last] == (if n < 10 then "" else Decimal(n / 10)) && (last == 0 <==> n < 10)
  {
  }

  /** A role may itself contain '#', but an ordinal never does: the last '#' tells the two apart. */
  lemma AliasInjective(role: string, ordinal: nat, role': string, ordinal': nat)
    requires Alias(role, ordinal) == Alias(role', ordinal')
    ensures role == role' && ordinal == ordinal'
  {
    var d, d', s := Decimal(ordinal), Decimal(ordinal'), Alias(role, ordinal);
    LastHash(role, d);
    LastHash(role', d');
    assert s[|s| - |d| - 1] == '#' && s[|s| - |d'| - 1] == '#';
    assert s[|s| - |d|..] == d && s[|s| - |d'|..] == d';
    assert s[..|s| - |d| - 2] == role && s[..|s| - |d'| - 2] == role';
    DecimalInjective(ordinal, ordinal');
  }

  lemma LastHash(role: string, d: string)
    requires '#' !in d
    ensures var s := role + " #" + d;
      s[|s| - |d| - 1] == '#' && forall k :: |s| - |d| <= k < |s| ==> s[k] != '#'
  {
    var s := role + " #" + d;
    forall k | |s| - |d| <= k < |s| ensures s[k] != '#' {
      assert s[k] == d[k - (|s| - |d|)];
    }
  }

  lemma {:induction false} RoleCountGrows(seats: seq<Seat>, role: string, i: nat, j: nat)
    requires i <= j <= |seats|
    ensures RoleCount(seats[..i], role) <= RoleCount(seats[..j], role)
    decreases j
  {
    if i < j {
      RoleCountGrows(seats, role, i, j - 1);
      assert seats[..j][..j - 1] == seats[..j - 1];
    }
  }

  /** No two seats of a room ever share an alias, whatever their roles and states. */
  lemma AliasesDistinct(seats: seq<Seat>, i: nat, j: nat)
    requires AliasesMinted(seats) && i < j < |seats|
    ensures seats[i].alias != seats[j].alias
  {
    RoleCountGrows(seats, seats[i].role, i + 1, j);
    assert seats[..j + 1][..j] == seats[..j];
    if seats[i].alias == seats[j].alias {
      AliasInjective(seats[i].role, RoleCount(seats[..i + 1], seats[i].role), seats[j].role, RoleCount(seats[..j + 1], seats[j].role));
    }
  }

  lemma {:induction false} SameRolesSameCount(seats: seq<Seat>, seats': seq<Seat>, role: string)
    requires |seats'| == |seats| && forall k :: 0 <= k < |seats| ==> seats'[k].role == seats[k].role
    ensures RoleCount(seats', role) == RoleCount(seats, role)
  {
    if seats != [] {
      SameRolesSameCount(seats[..|seats| - 1], seats'[..|seats| - 1], role);
    }
  }

  lemma SameRolesSameAliases(seats: seq<Seat>, seats': seq<Seat>)
    requires AliasesMinted(seats) && |seats'| == |seats|
    requires forall k :: 0 <= k < |seats| ==> seats'[k].role == seats[k].role && seats'[k].alias == seats[k].alias
    ensures AliasesMinted(seats')
  {
    forall k | 0 <= k < |seats| ensures seats'[k].alias == Some(Alias(seats'[k].role, RoleCount(seats'[..k + 1], seats'[k].role))) {
      SameRolesSameCount(seats[..k + 1], seats'[..k + 1], seats[k].role);
    }
  }

  lemma NextAliasMinted(seats: seq<Seat>, seat: Seat)
    requires AliasesMinted(seats) && seat.alias == Some(MintAlias(seats, seat.role))
    ensures AliasesMinted(seats + [seat])
  {
    var more := seats + [seat];
    assert more[..|seats|] == seats && more[..|seats| + 1] == more;
    assert RoleCount(more, seat.role) == RoleCount(seats, seat.role) + 1;
    forall k | 0 <= k < |more| ensures more[k].alias == Some(Alias(more[k].role, RoleCount(more[..k + 1], more[k].role))) {
      if k < |seats| { assert more[..k + 1] == seats[..k + 1] && more[k] == seats[k]; }
    }
  }
}
