/** The five kinds of ship in a fleet and the fixed size of each kind. */
module Fleet {
  /** Aircraft carrier, battleship, submarine, destroyer and patrol boat. */
  datatype Kind = A | B | S | D | P

  const AllKinds: set<Kind> := {A, B, S, D, P}

  /** The set of all kinds holds every kind. */
  lemma EveryKind(k: Kind)
    ensures k in AllKinds
  {
  }

  /** Number of cells a ship of kind `k` occupies. Every kind needs at least
      two cells, so a placement whose two ends coincide never fits. */
  function Size(k: Kind): (n: nat)
    ensures 2 <= n <= 5
    ensures n == 5 <==> k == A
  {
    match k
    case A => 5
    case B => 4
    case S => 3
    case D => 3
    case P => 2
  }

  /** The character that names the kind in reports and on the rendered board. */
  function Letter(k: Kind): (c: char)
    ensures c != '.' && c != ' '
  {
    match k
    case A => 'A'
    case B => 'B'
    case S => 'S'
    case D => 'D'
    case P => 'P'
  }

  /** Distinct kinds are reported with distinct letters. */
  lemma LetterInjective(k1: Kind, k2: Kind)
    ensures Letter(k1) == Letter(k2) ==> k1 == k2
  {
  }
}
