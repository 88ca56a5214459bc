/**
 * The 8-puzzle breadth-first solver (python/tabuleiro/app.py): a board is a
 * 3×3 grid of numbers with 0 for the blank; a move swaps the blank with an
 * orthogonal neighbour; `Bfs` searches the boards reachable from the start
 * with a FIFO queue, a parent map and a visited set.
 */
module Puzzle {
  import opened Wrappers

  /** A board, row by row. `to_tuple` only changes the container type, so boards serve as keys directly. */
  type Grid = seq<seq<int>>

  predicate IsGrid(g: Grid) {
    |g| == 3 && forall i :: 0 <= i < 3 ==> |g[i]| == 3
  }

  predicate InBounds(i: int, j: int) {
    0 <= i < 3 && 0 <= j < 3
  }

  /** The nine cells in row-major order. */
  function Cells(g: Grid): (c: seq<int>)
    requires IsGrid(g)
    ensures |c| == 9
  {
    g[0] + g[1] + g[2]
  }

  /** Cell `(i, j)` is at position `3 * i + j` of the cell sequence. */
  lemma CellAt(g: Grid, i: int, j: int)
    requires IsGrid(g) && 0 <= i < 3 && 0 <= j < 3
    ensures Cells(g)[3 * i + j] == g[i][j]
  {
  }

  /** Cell `(a, b)` comes before cell `(i, j)` in row-major order. */
  predicate Before(a: int, b: int, i: int, j: int) {
    a < i || (a == i && b < j)
  }

  /** The first position at or after `j` in `row` that holds 0, or -1. */
  function FirstZero(row: seq<int>, j: nat): (r: int)
    requires j <= |row|
    decreases |row| - j
    ensures r == -1 || j <= r < |row|
  {
    if j == |row| then -1
    else if row[j] == 0 then j
    else FirstZero(row, j + 1)
  }

  lemma {:induction false} FirstZeroSpec(row: seq<int>, j: nat)
    requires j <= |row|
    decreases |row| - j
    ensures var r := FirstZero(row, j);
      && (r == -1 ==> forall q :: j <= q < |row| ==> row[q] != 0)
      && (r != -1 ==> row[r] == 0 && forall q :: j <= q < r ==> row[q] != 0)
  {
    if j < |row| && row[j] != 0 {
      FirstZeroSpec(row, j + 1);
    }
  }

  /** The first blank in row-major order from row `i` on. */
  function BlankFrom(e: Grid, i: nat): (r: Option<(int, int)>)
    requires IsGrid(e) && i <= 3
    decreases 3 - i
    ensures r.Some? ==> i <= r.value.0 < 3 && 0 <= r.value.1 < 3
  {
    if i == 3 then None
    else
      var j := FirstZero(e[i], 0);
      if j == -1 then BlankFrom(e, i + 1) else Some((i, j))
  }

  lemma {:induction false} BlankFromSpec(e: Grid, i: nat)
    requires IsGrid(e) && i <= 3
    decreases 3 - i
    ensures var r := BlankFrom(e, i);
      && (r.None? ==> forall a, b :: i <= a < 3 && 0 <= b < 3 ==> e[a][b] != 0)
      && (r.Some? ==>
            && e[r.value.0][r.value.1] == 0
            && forall a, b :: i <= a < 3 && 0 <= b < 3 && Before(a, b, r.value.0, r.value.1) ==> e[a][b] != 0)
  {
    if i < 3 {
      FirstZeroSpec(e[i], 0);
      BlankFromSpec(e, i + 1);
    }
  }

  /** The blank's position: the first cell holding 0 in row-major order, if any. */
  function Blank(e: Grid): (r: Option<(int, int)>)
    requires IsGrid(e)
    ensures r.Some? ==> InBounds(r.value.0, r.value.1)
  {
    BlankFrom(e, 0)
  }

  /** `Blank` finds a cell holding 0 before which no cell holds 0, and finds nothing only when no cell holds 0. */
  lemma BlankSpec(e: Grid)
    requires IsGrid(e)
    ensures Blank(e).None? <==> forall a, b :: 0 <= a < 3 && 0 <= b < 3 ==> e[a][b] != 0
    ensures Blank(e).Some? ==>
      && e[Blank(e).value.0][Blank(e).value.1] == 0
      && forall a, b :: 0 <= a < 3 && 0 <= b < 3 && Before(a, b, Blank(e).value.0, Blank(e).value.1) ==> e[a][b] != 0
  {
    BlankFromSpec(e, 0);
  }

  /** A zero with no zero before it is the blank. */
  lemma BlankIsFirstZero(e: Grid, i: int, j: int)
    requires IsGrid(e) && 0 <= i < 3 && 0 <= j < 3 && e[i][j] == 0
    requires forall a, b :: 0 <= a < 3 && 0 <= b < 3 && Before(a, b, i, j) ==> e[a][b] != 0
    ensures Blank(e) == Some((i, j))
  {
    BlankSpec(e);
    var r := Blank(e);
    assert r.Some?;
    var (a, b) := r.value;
    if Before(a, b, i, j) {
      assert false;
    } else if Before(i, j, a, b) {
      assert false;
    }
  }

  /** A board has a blank exactly when 0 is among its tiles. */
  lemma BlankIffZeroTile(e: Grid)
    requires IsGrid(e)
    ensures Blank(e).Some? <==> 0 in multiset(Cells(e))
  {
    BlankSpec(e);
    var c := Cells(e);
    if 0 in multiset(c) {
      var q :| 0 <= q < 9 && c[q] == 0;
      CellAt(e, q / 3, q % 3);
      assert e[q / 3][q % 3] == c[3 * (q / 3) + q % 3];
    }
    if Blank(e).Some? {
      var (i, j) := Blank(e).value;
      CellAt(e, i, j);
    }
  }

  /** `encontrar_vazio`: scans the rows, and each row's cells, returning at the first 0. */
  method EncontrarVazio(estado: Grid) returns (r: Option<(int, int)>)
    requires IsGrid(estado)
    ensures r == Blank(estado)
  {
    for i := 0 to 3
      invariant forall a, b :: 0 <= a < i && 0 <= b < 3 ==> estado[a][b] != 0
    {
      for j := 0 to 3
        invariant forall a, b :: 0 <= a < 3 && 0 <= b < 3 && Before(a, b, i, j) ==> estado[a][b] != 0
      {
        if estado[i][j] == 0 {
          BlankIsFirstZero(estado, i, j);
          return Some((i, j));
        }
      }
    }
    BlankSpec(estado);
    return None;
  }

  // ---------------------------------------------------------------------
  // Moves

  /** `movimentos`: up, down, left, right. */
  const MOVIMENTOS: seq<(int, int)> := [(-1, 0), (1, 0), (0, -1), (0, 1)]

  /** The board with cell `(i, j)` set to `v`. */
  function Set(g: Grid, i: int, j: int, v: int): Grid
    requires IsGrid(g) && 0 <= i < 3 && 0 <= j < 3
  {
    g[i := g[i][j := v]]
  }

  /** `novo[i][j], novo[ni][nj] = novo[ni][nj], novo[i][j]` on a copy of `g`. */
  function Swap(g: Grid, i: int, j: int, ni: int, nj: int): (h: Grid)
    requires IsGrid(g) && 0 <= i < 3 && 0 <= j < 3 && 0 <= ni < 3 && 0 <= nj < 3
    ensures IsGrid(h)
    ensures h[ni][nj] == g[i][j] && h[i][j] == g[ni][nj]
    ensures forall a, b :: InBounds(a, b) && !(a == i && b == j) && !(a == ni && b == nj) ==> h[a][b] == g[a][b]
  {
    Set(Set(g, i, j, g[ni][nj]), ni, nj, g[i][j])
  }

  /** The Manhattan distance between two cells. */
  function Distancia(i: int, j: int, ni: int, nj: int): nat {
    (if ni < i then i - ni else ni - i) + (if nj < j then j - nj else nj - j)
  }

  /** The children from the first `d` moves, blank at `(i, j)`, in the order the loop appends them. */
  function FilhosAte(e: Grid, i: int, j: int, d: nat): seq<Grid>
    requires IsGrid(e) && InBounds(i, j) && d <= 4
  {
    if d == 0 then []
    else
      var ni := i + MOVIMENTOS[d - 1].0;
      var nj := j + MOVIMENTOS[d - 1].1;
      FilhosAte(e, i, j, d - 1) + (if InBounds(ni, nj) then [Swap(e, i, j, ni, nj)] else [])
  }

  /** What `gerar_filhos` returns for a board with a blank. */
  function Filhos(e: Grid): seq<Grid>
    requires IsGrid(e) && Blank(e).Some?
  {
    FilhosAte(e, Blank(e).value.0, Blank(e).value.1, 4)
  }

  /** `gerar_filhos`. A board without a blank makes the source fail unpacking `None`. */
  method GerarFilhos(estado: Grid) returns (filhos: seq<Grid>)
    requires IsGrid(estado) && Blank(estado).Some?
    ensures filhos == Filhos(estado)
  {
    var vazio := EncontrarVazio(estado);
    var (i, j) := vazio.value;
    filhos := [];
    for d := 0 to 4
      invariant filhos == FilhosAte(estado, i, j, d)
    {
      var (di, dj) := MOVIMENTOS[d];
      var ni, nj := i + di, j + dj;
      if 0 <= ni < 3 && 0 <= nj < 3 {
        var novo := Swap(estado, i, j, ni, nj);
        filhos := filhos + [novo];
      }
    }
  }

  /**
   * The move relation, stated independently of the move table: `b` is `a`
   * with its blank swapped with an in-bounds orthogonal neighbour.
   */
  ghost predicate Adjacent(a: Grid, b: Grid) {
    && IsGrid(a) && Blank(a).Some?
    && var (i, j) := Blank(a).value;
       exists ni, nj :: InBounds(ni, nj) && Distancia(i, j, ni, nj) == 1
                        && b == Swap(a, i, j, ni, nj)
  }

  /** Move `t` of the table, from `(i, j)`, stays on the board and turns `e` into `c`. */
  predicate MoveTo(e: Grid, i: int, j: int, t: int, c: Grid)
    requires IsGrid(e) && InBounds(i, j) && 0 <= t < 4
  {
    var ni := i + MOVIMENTOS[t].0;
    var nj := j + MOVIMENTOS[t].1;
    InBounds(ni, nj) && c == Swap(e, i, j, ni, nj)
  }

  lemma {:induction false} MembroFilhosAte(e: Grid, i: int, j: int, d: nat, c: Grid)
    requires IsGrid(e) && InBounds(i, j) && d <= 4
    ensures c in FilhosAte(e, i, j, d) <==> exists t :: 0 <= t < d && MoveTo(e, i, j, t, c)
  {
    if d > 0 {
      MembroFilhosAte(e, i, j, d - 1, c);
      if MoveTo(e, i, j, d - 1, c) {
        assert c in FilhosAte(e, i, j, d);
      }
    }
  }

  lemma FilhoEhAdjacente(e: Grid, c: Grid)
    requires IsGrid(e) && Blank(e).Some? && c in Filhos(e)
    ensures Adjacent(e, c)
  {
    var (i, j) := Blank(e).value;
    MembroFilhosAte(e, i, j, 4, c);
    var t :| 0 <= t < 4 && MoveTo(e, i, j, t, c);
    var ni, nj := i + MOVIMENTOS[t].0, j + MOVIMENTOS[t].1;
    assert Distancia(i, j, ni, nj) == 1;
  }

  lemma AdjacenteEhFilho(e: Grid, c: Grid)
    requires Adjacent(e, c)
    ensures c in Filhos(e)
  {
    var (i, j) := Blank(e).value;
    MembroFilhosAte(e, i, j, 4, c);
    var ni, nj :| InBounds(ni, nj) && Distancia(i, j, ni, nj) == 1 && c == Swap(e, i, j, ni, nj);
    var t := if ni == i - 1 then 0 else if ni == i + 1 then 1 else if nj == j - 1 then 2 else 3;
    assert i + MOVIMENTOS[t].0 == ni && j + MOVIMENTOS[t].1 == nj;
    assert MoveTo(e, i, j, t, c);
  }

  /** The children are exactly the boards one move away. */
  lemma FilhosSaoAdjacentes(e: Grid, c: Grid)
    requires IsGrid(e) && Blank(e).Some?
    ensures c in Filhos(e) <==> Adjacent(e, c)
  {
    if c in Filhos(e) {
      FilhoEhAdjacente(e, c);
    }
    if Adjacent(e, c) {
      AdjacenteEhFilho(e, c);
    }
  }

  /** 2 children with the blank in a corner, 3 on an edge, 4 in the centre. */
  lemma QuantidadeDeFilhos(e: Grid)
    requires IsGrid(e) && Blank(e).Some?
    ensures var (i, j) := Blank(e).value;
      |Filhos(e)| == 2 + (if i == 1 then 1 else 0) + (if j == 1 then 1 else 0)
  {
    var (i, j) := Blank(e).value;
    assert |FilhosAte(e, i, j, 1)| == (if i > 0 then 1 else 0);
    assert |FilhosAte(e, i, j, 2)| == |FilhosAte(e, i, j, 1)| + (if i < 2 then 1 else 0);
    assert |FilhosAte(e, i, j, 3)| == |FilhosAte(e, i, j, 2)| + (if j > 0 then 1 else 0);
    assert |FilhosAte(e, i, j, 4)| == |FilhosAte(e, i, j, 3)| + (if j < 2 then 1 else 0);
  }

  /** Setting a cell of the board sets its position in the cell sequence. */
  lemma CellsSet(g: Grid, i: int, j: int, v: int)
    requires IsGrid(g) && InBounds(i, j)
    ensures IsGrid(Set(g, i, j, v)) && Cells(Set(g, i, j, v)) == Cells(g)[3 * i + j := v]
  {
    var h := Set(g, i, j, v);
    var c := Cells(g)[3 * i + j := v];
    forall q | 0 <= q < 9
      ensures Cells(h)[q] == c[q]
    {
      var a, b := q / 3, q % 3;
      assert q == 3 * a + b;
      CellAt(h, a, b);
      CellAt(g, a, b);
    }
  }

  /** Swapping two cells of the board swaps the two positions of its cell sequence. */
  lemma CellsSwap(g: Grid, i: int, j: int, ni: int, nj: int)
    requires IsGrid(g) && InBounds(i, j) && InBounds(ni, nj)
    ensures Cells(Swap(g, i, j, ni, nj)) == Cells(g)[3 * i + j := g[ni][nj]][3 * ni + nj := g[i][j]]
  {
    CellsSet(g, i, j, g[ni][nj]);
    CellsSet(Set(g, i, j, g[ni][nj]), ni, nj, g[i][j]);
  }

  /** Exchanging two positions of a sequence keeps its multiset. */
  lemma SwapMultiset(s: seq<int>, p: int, q: int)
    requires 0 <= p < |s| && 0 <= q < |s| && p != q
    ensures multiset(s[p := s[q]][q := s[p]]) == multiset(s)
  {
  }

  /** A move keeps the board a 3×3 grid with the same tiles, and hence with a blank. */
  lemma MesmasPecas(a: Grid, b: Grid)
    requires Adjacent(a, b)
    ensures IsGrid(b) && multiset(Cells(b)) == multiset(Cells(a)) && Blank(b).Some?
  {
    var (i, j) := Blank(a).value;
    var ni, nj :| InBounds(ni, nj) && Distancia(i, j, ni, nj) == 1
                  && b == Swap(a, i, j, ni, nj);
    CellsSwap(a, i, j, ni, nj);
    CellAt(a, i, j);
    CellAt(a, ni, nj);
    SwapMultiset(Cells(a), 3 * i + j, 3 * ni + nj);
    BlankIffZeroTile(a);
    BlankIffZeroTile(b);
  }

  /** Every child is a rearrangement of its parent's tiles. */
  lemma FilhosPermutam(e: Grid, c: Grid)
    requires IsGrid(e) && Blank(e).Some? && c in Filhos(e)
    ensures IsGrid(c) && multiset(Cells(c)) == multiset(Cells(e))
  {
    FilhoEhAdjacente(e, c);
    MesmasPecas(e, c);
  }

  // ---------------------------------------------------------------------
  // Move chains

  function Last<T>(p: seq<T>): T
    requires |p| > 0
  {
    p[|p| - 1]
  }

  /** `p` is a non-empty sequence of boards, each one move from the one before. */
  ghost predicate Caminho(p: seq<Grid>) {
    |p| > 0 && forall k :: 0 <= k < |p| - 1 ==> Adjacent(p[k], p[k + 1])
  }

  ghost predicate CaminhoDe(p: seq<Grid>, a: Grid) {
    Caminho(p) && p[0] == a
  }

  /** Dropping the last board of a chain leaves a chain. */
  lemma CaminhoPrefixo(p: seq<Grid>, a: Grid)
    requires CaminhoDe(p, a) && |p| > 1
    ensures CaminhoDe(p[..|p| - 1], a) && Adjacent(Last(p[..|p| - 1]), Last(p))
  {
    var q := p[..|p| - 1];
    forall k | 0 <= k < |q| - 1
      ensures Adjacent(q[k], q[k + 1])
    {
      assert q[k] == p[k] && q[k + 1] == p[k + 1];
    }
    assert Adjacent(p[|p| - 2], p[|p| - 1]);
  }

  /** `b` can be reached from `a` by zero or more moves. */
  ghost predicate Reachable(a: Grid, b: Grid) {
    exists p :: CaminhoDe(p, a) && Last(p) == b
  }

  /** A set of boards that holds `a` and is closed under moves holds every board reachable from `a`. */
  lemma {:induction false} FechadoContemCaminho(V: set<Grid>, a: Grid, p: seq<Grid>)
    requires a in V && forall v, c :: v in V && Adjacent(v, c) ==> c in V
    requires CaminhoDe(p, a)
    ensures Last(p) in V
    decreases |p|
  {
    if |p| > 1 {
      CaminhoPrefixo(p, a);
      FechadoContemCaminho(V, a, p[..|p| - 1]);
    }
  }

  /** ... so a board outside such a set cannot be reached from `a`. */
  lemma FechadoBloqueia(V: set<Grid>, a: Grid, b: Grid)
    requires a in V && b !in V && forall v, c :: v in V && Adjacent(v, c) ==> c in V
    ensures !Reachable(a, b)
  {
    if Reachable(a, b) {
      var p :| CaminhoDe(p, a) && Last(p) == b;
      FechadoContemCaminho(V, a, p);
      assert false;
    }
  }

  // ---------------------------------------------------------------------
  // Path reconstruction

  /** `pais.get(x)`: the recorded parent, `None` for the root or an unknown board. */
  function Get(pais: map<Grid, Option<Grid>>, x: Grid): (r: Option<Grid>)
    ensures x in pais ==> r == pais[x]
    ensures x !in pais ==> r == None
  {
    if x in pais then pais[x] else None
  }

  /** Each recorded parent ranks strictly below its child: the parent map has no cycle. */
  ghost predicate Acyclic(pais: map<Grid, Option<Grid>>, rank: map<Grid, nat>) {
    forall x :: x in pais && pais[x].Some? ==> x in rank && pais[x].value in rank && rank[pais[x].value] < rank[x]
  }

  function Reverse<T>(s: seq<T>): (r: seq<T>)
    ensures |r| == |s| && forall i :: 0 <= i < |s| ==> r[i] == s[|s| - 1 - i]
  {
    if s == [] then [] else Reverse(s[1..]) + [s[0]]
  }

  /** How far the parent walk from `cur` can still go. */
  function Altura(cur: Option<Grid>, rank: map<Grid, nat>): nat {
    match cur
    case None => 0
    case Some(g) => (if g in rank then rank[g] else 0) + 1
  }

  /**
   * `reconstruir_caminho`: follows parents from `atual` until there is none,
   * then reverses. The result ends with `atual`, starts with a board without
   * a parent, and records each board as the parent of the next. It
   * terminates because the parent map is acyclic (`rank` witnesses it).
   */
  method ReconstruirCaminho(pais: map<Grid, Option<Grid>>, atual: Grid, ghost rank: map<Grid, nat>) returns (caminho: seq<Grid>)
    requires Acyclic(pais, rank)
    ensures |caminho| > 0 && Last(caminho) == atual
    ensures Get(pais, caminho[0]) == None
    ensures forall k :: 0 <= k < |caminho| - 1 ==> Get(pais, caminho[k + 1]) == Some(caminho[k])
  {
    var invertido: seq<Grid> := [];
    var cur := Some(atual);
    while cur.Some?
      invariant invertido == [] ==> cur == Some(atual)
      invariant invertido != [] ==> invertido[0] == atual && cur == Get(pais, Last(invertido))
      invariant forall k :: 0 <= k < |invertido| - 1 ==> Get(pais, invertido[k]) == Some(invertido[k + 1])
      decreases Altura(cur, rank)
    {
      invertido := invertido + [cur.value];
      cur := Get(pais, cur.value);
    }
    caminho := Reverse(invertido);
  }

  // ---------------------------------------------------------------------
  // The finite board space

  /** Every sequence of length `n` over `S`: a finite set. */
  function SeqsOf<T>(S: set<T>, n: nat): set<seq<T>> {
    if n == 0 then {[]} else set x, r | x in S && r in SeqsOf(S, n - 1) :: [x] + r
  }

  lemma {:induction false} InSeqsOf<T>(S: set<T>, r: seq<T>)
    requires forall i :: 0 <= i < |r| ==> r[i] in S
    ensures r in SeqsOf(S, |r|)
    decreases |r|
  {
    if |r| > 0 {
      InSeqsOf(S, r[1..]);
      assert r == [r[0]] + r[1..];
    }
  }

  /** Every 3×3 board whose tiles are drawn from `S`. */
  function Tabuleiros(S: set<int>): set<Grid> {
    SeqsOf(SeqsOf(S, 3), 3)
  }

  /** A board with the same tiles as `inicial` lies in the board space of `inicial`'s tiles. */
  lemma NoEspaco(g: Grid, inicial: Grid)
    requires IsGrid(g) && IsGrid(inicial) && multiset(Cells(g)) == multiset(Cells(inicial))
    ensures g in Tabuleiros(set v | v in Cells(inicial))
  {
    var S := set v | v in Cells(inicial);
    var cg := Cells(g);
    forall i | 0 <= i < 3
      ensures g[i] in SeqsOf(S, 3)
    {
      forall j | 0 <= j < 3
        ensures g[i][j] in S
      {
        CellAt(g, i, j);
        assert cg[3 * i + j] in multiset(cg);
      }
      InSeqsOf(S, g[i]);
    }
    InSeqsOf(SeqsOf(S, 3), g);
  }

  // ---------------------------------------------------------------------
  // Breadth-first search

  /** Every board in the parent map is a 3×3 grid with the same tiles as `inicial`. */
  ghost predicate MesmasPecasQue(inicial: Grid, pais: map<Grid, Option<Grid>>) {
    IsGrid(inicial) && forall x :: x in pais ==> IsGrid(x) && multiset(Cells(x)) == multiset(Cells(inicial))
  }

  /** Every board but `inicial` has a recorded parent one move before it and one level (`D`) above it. */
  ghost predicate PaisValidos(inicial: Grid, pais: map<Grid, Option<Grid>>, D: map<Grid, nat>) {
    forall x :: x in pais && x != inicial ==>
      pais[x].Some? && pais[x].value in pais && x in D && pais[x].value in D
      && Adjacent(pais[x].value, x) && D[x] == D[pais[x].value] + 1
  }

  /**
   * The parent map is a tree rooted at `inicial`: every other board has a
   * recorded parent one move before it, one level (`D`) below it, and with
   * the same tiles as `inicial`.
   */
  ghost predicate Arvore(inicial: Grid, pais: map<Grid, Option<Grid>>, D: map<Grid, nat>) {
    && IsGrid(inicial)
    && inicial in pais && pais[inicial] == None && inicial in D && D[inicial] == 0
    && (forall x :: x in pais <==> x in D)
    && MesmasPecasQue(inicial, pais)
    && PaisValidos(inicial, pais, D)
  }

  ghost predicate Distinct(s: seq<Grid>) {
    forall a, b :: 0 <= a < b < |s| ==> s[a] != s[b]
  }

  /**
   * `hist` lists every board ever put in the queue, in order, each once;
   * the queue is its unvisited tail from `k`; the parent map's keys are its
   * boards and the visited set its first `k`; levels never decrease along
   * it and span at most two from the head.
   */
  ghost predicate Fila(hist: seq<Grid>, k: nat, fila: seq<Grid>, visitados: set<Grid>, pais: map<Grid, Option<Grid>>, D: map<Grid, nat>) {
    && k <= |hist| && fila == hist[k..] && Distinct(hist)
    && (forall x :: x in pais <==> x in hist)
    && (forall x :: x in visitados <==> x in hist[..k])
    && (forall x :: x in hist ==> x in D)
    && (forall a, b :: 0 <= a < b < |hist| ==> D[hist[a]] <= D[hist[b]])
    && (k < |hist| ==> forall a :: 0 <= a < |hist| ==> D[hist[a]] <= D[hist[k]] + 1)
  }

  /** Every move out of a visited board leads into the parent map, at most one level deeper. */
  ghost predicate Fechado(visitados: set<Grid>, pais: map<Grid, Option<Grid>>, D: map<Grid, nat>) {
    forall v, c :: v in visitados && Adjacent(v, c) ==> c in pais && c in D && v in D && D[c] <= D[v] + 1
  }

  /** Every chain from `inicial` no longer than the head's level ends in the parent map, no deeper than its length. */
  ghost predicate Minimo(inicial: Grid, hist: seq<Grid>, k: nat, pais: map<Grid, Option<Grid>>, D: map<Grid, nat>)
    requires forall x :: x in hist ==> x in D
  {
    k < |hist| ==>
      forall p :: CaminhoDe(p, inicial) && |p| <= D[hist[k]] + 1 ==> Last(p) in pais && Last(p) in D && D[Last(p)] <= |p| - 1
  }

  lemma MinimoInicial(inicial: Grid)
    requires IsGrid(inicial)
    ensures Minimo(inicial, [inicial], 0, map[inicial := None], map[inicial := 0])
  {
    forall p | CaminhoDe(p, inicial) && |p| <= 1
      ensures Last(p) == inicial
    {
    }
  }

  /**
   * Visiting the head keeps `Minimo`: a chain one longer than the old
   * head's level ends one move from a board no deeper than that level,
   * which comes before the new head and so is visited.
   */
  lemma MinimoAvanca(inicial: Grid, hist: seq<Grid>, k: nat, pais: map<Grid, Option<Grid>>, D: map<Grid, nat>, visitados: set<Grid>)
    requires k < |hist| && Fila(hist, k + 1, hist[k + 1..], visitados, pais, D)
    requires forall a :: 0 <= a < |hist| ==> D[hist[a]] <= D[hist[k]] + 1
    requires Fechado(visitados, pais, D)
    requires Minimo(inicial, hist, k, pais, D)
    ensures Minimo(inicial, hist, k + 1, pais, D)
  {
    if k + 1 < |hist| {
      var nivel := D[hist[k]];
      forall p | CaminhoDe(p, inicial) && |p| <= D[hist[k + 1]] + 1
        ensures Last(p) in pais && Last(p) in D && D[Last(p)] <= |p| - 1
      {
        if |p| > nivel + 1 {
          CaminhoPrefixo(p, inicial);
          var q := p[..|p| - 1];
          var y := Last(q);
          assert y in pais && D[y] <= nivel;
          assert y in hist;
          var iy :| 0 <= iy < |hist| && hist[iy] == y;
          assert forall a :: k + 1 <= a < |hist| ==> D[hist[k + 1]] <= D[hist[a]];
          assert iy <= k;
          assert hist[..k + 1][iy] == y;
          assert y in visitados;
        }
      }
    }
  }

  /** A board in the tree together with its recorded ancestors is a chain from `inicial` as long as its level. */
  lemma {:induction false} CaminhoReconstruido(inicial: Grid, pais: map<Grid, Option<Grid>>, D: map<Grid, nat>, c: seq<Grid>)
    requires Arvore(inicial, pais, D)
    requires |c| > 0 && Last(c) in pais && Get(pais, c[0]) == None
    requires forall k :: 0 <= k < |c| - 1 ==> Get(pais, c[k + 1]) == Some(c[k])
    ensures CaminhoDe(c, inicial) && D[Last(c)] == |c| - 1
    decreases |c|
  {
    if |c| > 1 {
      var d := c[..|c| - 1];
      assert Get(pais, Last(c)) == Some(Last(d));
      CaminhoReconstruido(inicial, pais, D, d);
      forall k | 0 <= k < |c| - 1
        ensures Adjacent(c[k], c[k + 1])
      {
        if k < |c| - 2 {
          assert c[k] == d[k] && c[k + 1] == d[k + 1];
        }
      }
    }
  }

  /** The outer loop invariant of `bfs`. */
  ghost predicate Externo(inicial: Grid, final: Grid, fila: seq<Grid>, visitados: set<Grid>,
                          pais: map<Grid, Option<Grid>>, hist: seq<Grid>, k: nat, D: map<Grid, nat>) {
    && Arvore(inicial, pais, D)
    && Fila(hist, k, fila, visitados, pais, D)
    && Fechado(visitados, pais, D)
    && Minimo(inicial, hist, k, pais, D)
    && |hist| > 0 && hist[0] == inicial
    && final !in visitados
  }

  /** The invariant while the children of the head `atual` are being enqueued. */
  ghost predicate Interno(inicial: Grid, final: Grid, fila: seq<Grid>, visitados: set<Grid>,
                          pais: map<Grid, Option<Grid>>, hist: seq<Grid>, k: nat, D: map<Grid, nat>, atual: Grid) {
    && Externo(inicial, final, [atual] + fila, visitados, pais, hist, k, D)
    && k < |hist| && hist[k] == atual
    && forall a :: 0 <= a < |hist| ==> D[hist[a]] <= D[atual] + 1
  }

  lemma ArvoreAciclica(inicial: Grid, pais: map<Grid, Option<Grid>>, D: map<Grid, nat>)
    requires Arvore(inicial, pais, D)
    ensures Acyclic(pais, D)
  {
  }

  /** The head of the queue is the first unvisited board, queued, and at most one level below every board. */
  lemma CabecaDaFila(hist: seq<Grid>, k: nat, fila: seq<Grid>, visitados: set<Grid>, pais: map<Grid, Option<Grid>>, D: map<Grid, nat>)
    requires Fila(hist, k, fila, visitados, pais, D) && fila != []
    ensures k < |hist| && fila[0] == hist[k] && fila[0] !in visitados && fila[0] in pais
    ensures forall a :: 0 <= a < |hist| ==> D[hist[a]] <= D[fila[0]] + 1
  {
    assert fila[0] == hist[k];
    assert forall a :: 0 <= a < k ==> hist[..k][a] != hist[k];
    assert fila[0] !in hist[..k];
  }

  /** Popping the head of the queue enters the inner invariant. */
  lemma Desenfileira(inicial: Grid, final: Grid, fila: seq<Grid>, visitados: set<Grid>,
                     pais: map<Grid, Option<Grid>>, hist: seq<Grid>, k: nat, D: map<Grid, nat>)
    requires Externo(inicial, final, fila, visitados, pais, hist, k, D) && fila != []
    ensures Interno(inicial, final, fila[1..], visitados, pais, hist, k, D, fila[0])
    ensures fila[0] !in visitados && fila[0] in pais
  {
    CabecaDaFila(hist, k, fila, visitados, pais, D);
    ExternoMesmaFila(inicial, final, fila, [fila[0]] + fila[1..], visitados, pais, hist, k, D);
  }

  lemma ExternoMesmaFila(inicial: Grid, final: Grid, fila: seq<Grid>, fila': seq<Grid>, visitados: set<Grid>,
                         pais: map<Grid, Option<Grid>>, hist: seq<Grid>, k: nat, D: map<Grid, nat>)
    requires Externo(inicial, final, fila, visitados, pais, hist, k, D) && fila' == fila
    ensures Externo(inicial, final, fila', visitados, pais, hist, k, D)
  {
  }

  lemma PecasCrescem(inicial: Grid, pais: map<Grid, Option<Grid>>, atual: Grid, filho: Grid)
    requires MesmasPecasQue(inicial, pais) && atual in pais && Adjacent(atual, filho)
    ensures MesmasPecasQue(inicial, pais[filho := Some(atual)])
  {
    MesmasPecas(atual, filho);
  }

  lemma PaisCrescem(inicial: Grid, pais: map<Grid, Option<Grid>>, D: map<Grid, nat>, atual: Grid, filho: Grid)
    requires PaisValidos(inicial, pais, D) && atual in pais && atual in D && filho !in pais && filho !in D
    requires filho != inicial && Adjacent(atual, filho)
    ensures PaisValidos(inicial, pais[filho := Some(atual)], D[filho := D[atual] + 1])
  {
    var pais', D' := pais[filho := Some(atual)], D[filho := D[atual] + 1];
    forall x | x in pais' && x != inicial
      ensures pais'[x].Some? && pais'[x].value in pais' && x in D' && pais'[x].value in D'
      ensures Adjacent(pais'[x].value, x) && D'[x] == D'[pais'[x].value] + 1
    {
      if x == filho {
        assert pais'[x].value == atual;
      } else {
        var y := pais[x].value;
        assert pais'[x] == pais[x] && y in pais && D'[x] == D[x] && D'[y] == D[y];
      }
    }
  }

  lemma ArvoreCresce(inicial: Grid, pais: map<Grid, Option<Grid>>, D: map<Grid, nat>, atual: Grid, filho: Grid)
    requires Arvore(inicial, pais, D) && atual in pais && filho !in pais && Adjacent(atual, filho)
    ensures Arvore(inicial, pais[filho := Some(atual)], D[filho := D[atual] + 1])
  {
    PecasCrescem(inicial, pais, atual, filho);
    PaisCrescem(inicial, pais, D, atual, filho);
    var pais', D' := pais[filho := Some(atual)], D[filho := D[atual] + 1];
    assert A: inicial in pais' && pais'[inicial] == None && inicial in D' && D'[inicial] == 0;
    assert B: forall x :: x in pais' <==> x in D';
    assert C: MesmasPecasQue(inicial, pais');
    assert E: PaisValidos(inicial, pais', D');
  }

  lemma FilaCresce(hist: seq<Grid>, k: nat, fila: seq<Grid>, visitados: set<Grid>, pais: map<Grid, Option<Grid>>,
                   D: map<Grid, nat>, atual: Grid, filho: Grid)
    requires Fila(hist, k, [atual] + fila, visitados, pais, D) && k < |hist| && hist[k] == atual
    requires forall a :: 0 <= a < |hist| ==> D[hist[a]] <= D[atual] + 1
    requires filho !in pais
    ensures Fila(hist + [filho], k, [atual] + (fila + [filho]), visitados, pais[filho := Some(atual)], D[filho := D[atual] + 1])
  {
    var hist', D' := hist + [filho], D[filho := D[atual] + 1];
    assert [atual] + (fila + [filho]) == hist'[k..];
    assert hist'[..k] == hist[..k];
    assert forall x :: x in hist' <==> x in hist || x == filho;
    forall a | 0 <= a < |hist|
      ensures hist'[a] == hist[a] && D'[hist'[a]] == D[hist[a]]
    {
    }
  }

  lemma FechadoCresce(visitados: set<Grid>, pais: map<Grid, Option<Grid>>, D: map<Grid, nat>, atual: Grid, filho: Grid)
    requires Fechado(visitados, pais, D) && filho !in pais && filho !in D && atual in D
    ensures Fechado(visitados, pais[filho := Some(atual)], D[filho := D[atual] + 1])
  {
  }

  lemma MinimoCresce(inicial: Grid, hist: seq<Grid>, k: nat, pais: map<Grid, Option<Grid>>, D: map<Grid, nat>, atual: Grid, filho: Grid)
    requires forall x :: x in hist ==> x in D
    requires forall x :: x in pais ==> x in D
    requires Minimo(inicial, hist, k, pais, D) && k < |hist| && hist[k] == atual && atual in pais && filho !in pais
    ensures Minimo(inicial, hist + [filho], k, pais[filho := Some(atual)], D[filho := D[atual] + 1])
  {
    var hist', pais', D' := hist + [filho], pais[filho := Some(atual)], D[filho := D[atual] + 1];
    assert hist'[k] == atual;
    forall p | CaminhoDe(p, inicial) && |p| <= D'[hist'[k]] + 1
      ensures Last(p) in pais' && Last(p) in D' && D'[Last(p)] <= |p| - 1
    {
      assert Last(p) in pais;
    }
  }

  /** Recording a new child of `atual` keeps the inner invariant and every earlier entry. */
  lemma Enfileira(inicial: Grid, final: Grid, fila: seq<Grid>, visitados: set<Grid>,
                  pais: map<Grid, Option<Grid>>, hist: seq<Grid>, k: nat, D: map<Grid, nat>, atual: Grid, filho: Grid)
    requires Interno(inicial, final, fila, visitados, pais, hist, k, D, atual)
    requires filho !in pais && Adjacent(atual, filho)
    ensures Interno(inicial, final, fila + [filho], visitados, pais[filho := Some(atual)], hist + [filho], k, D[filho := D[atual] + 1], atual)
    ensures forall x :: x in pais ==> x in D && D[filho := D[atual] + 1][x] == D[x]
  {
    assert atual in hist;
    ArvoreCresce(inicial, pais, D, atual, filho);
    FilaCresce(hist, k, fila, visitados, pais, D, atual, filho);
    FechadoCresce(visitados, pais, D, atual, filho);
    MinimoCresce(inicial, hist, k, pais, D, atual, filho);
  }

  lemma FilaAvanca(hist: seq<Grid>, k: nat, fila: seq<Grid>, visitados: set<Grid>, pais: map<Grid, Option<Grid>>,
                   D: map<Grid, nat>, atual: Grid)
    requires Fila(hist, k, [atual] + fila, visitados, pais, D) && k < |hist| && hist[k] == atual
    requires forall a :: 0 <= a < |hist| ==> D[hist[a]] <= D[atual] + 1
    ensures Fila(hist, k + 1, fila, visitados + {atual}, pais, D)
  {
    assert hist[..k + 1] == hist[..k] + [atual];
    assert fila == hist[k + 1..];
    if k + 1 < |hist| {
      assert D[hist[k]] <= D[hist[k + 1]];
    }
  }

  lemma FechadoAvanca(visitados: set<Grid>, pais: map<Grid, Option<Grid>>, D: map<Grid, nat>, atual: Grid)
    requires Fechado(visitados, pais, D) && atual in D
    requires forall c :: Adjacent(atual, c) ==> c in pais && c in D && D[c] <= D[atual] + 1
    ensures Fechado(visitados + {atual}, pais, D)
  {
  }

  /**
   * Marking `atual` visited, once every move out of it is recorded, brings
   * the outer invariant back for the next head.
   */
  lemma Visita(inicial: Grid, final: Grid, fila: seq<Grid>, visitados: set<Grid>,
               pais: map<Grid, Option<Grid>>, hist: seq<Grid>, k: nat, D: map<Grid, nat>, atual: Grid)
    requires Interno(inicial, final, fila, visitados, pais, hist, k, D, atual) && atual != final
    requires forall c :: Adjacent(atual, c) ==> c in pais && c in D && D[c] <= D[atual] + 1
    ensures Externo(inicial, final, fila, visitados + {atual}, pais, hist, k + 1, D)
  {
    var v' := visitados + {atual};
    assert atual in hist;
    FilaAvanca(hist, k, fila, visitados, pais, D, atual);
    FechadoAvanca(visitados, pais, D, atual);
    MinimoAvanca(inicial, hist, k, pais, D, v');
  }

  /** The first `n` boards of `cs` are in the parent map, at most one level below `atual`. */
  ghost predicate Registrados(cs: seq<Grid>, n: nat, pais: map<Grid, Option<Grid>>, D: map<Grid, nat>, atual: Grid) {
    n <= |cs| && atual in D && forall j :: 0 <= j < n ==> cs[j] in pais && cs[j] in D && D[cs[j]] <= D[atual] + 1
  }

  /** A child already visited or queued is in the parent map, at most one level below `atual`. */
  lemma JaRegistrado(inicial: Grid, final: Grid, fila: seq<Grid>, visitados: set<Grid>,
                     pais: map<Grid, Option<Grid>>, hist: seq<Grid>, k: nat, D: map<Grid, nat>, atual: Grid, filho: Grid)
    requires Interno(inicial, final, fila, visitados, pais, hist, k, D, atual)
    requires filho in visitados || filho in pais
    ensures filho in pais && filho in D && D[filho] <= D[atual] + 1
  {
    if filho in visitados {
      assert filho in hist[..k];
    }
    assert filho in hist;
  }

  /** Recording a new child keeps the earlier children recorded and adds it. */
  lemma RegistradosCrescem(cs: seq<Grid>, n: nat, pais: map<Grid, Option<Grid>>, D: map<Grid, nat>, atual: Grid)
    requires Registrados(cs, n, pais, D, atual) && n < |cs| && cs[n] !in D
    ensures Registrados(cs, n + 1, pais[cs[n] := Some(atual)], D[cs[n] := D[atual] + 1], atual)
  {
  }

  /** Once all the children are recorded, so is every board one move from `atual`. */
  lemma TodosRegistrados(atual: Grid, filhos: seq<Grid>, pais: map<Grid, Option<Grid>>, D: map<Grid, nat>)
    requires IsGrid(atual) && Blank(atual).Some? && filhos == Filhos(atual)
    requires Registrados(filhos, |filhos|, pais, D, atual)
    ensures forall c :: Adjacent(atual, c) ==> c in pais && c in D && D[c] <= D[atual] + 1
  {
    forall c | Adjacent(atual, c)
      ensures c in pais && c in D && D[c] <= D[atual] + 1
    {
      AdjacenteEhFilho(atual, c);
    }
  }

  /** Every visited board is a key of the parent map. */
  lemma VisitadosEmPais(inicial: Grid, final: Grid, fila: seq<Grid>, visitados: set<Grid>,
                        pais: map<Grid, Option<Grid>>, hist: seq<Grid>, k: nat, D: map<Grid, nat>)
    requires Externo(inicial, final, fila, visitados, pais, hist, k, D)
    ensures visitados <= pais.Keys
  {
    forall x | x in visitados
      ensures x in pais
    {
      assert x in hist[..k];
    }
  }

  /** A chain extended by one move is a chain. */
  lemma CaminhoEstende(p: seq<Grid>, a: Grid, x: Grid)
    requires CaminhoDe(p, a) && Adjacent(Last(p), x)
    ensures CaminhoDe(p + [x], a) && Last(p + [x]) == x
  {
    var q := p + [x];
    forall k | 0 <= k < |q| - 1
      ensures Adjacent(q[k], q[k + 1])
    {
      if k < |p| - 1 {
        assert q[k] == p[k] && q[k + 1] == p[k + 1];
      }
    }
  }

  /** Every board of the tree can be reached from `inicial`: follow the recorded parents back to it. */
  lemma {:induction false} ArvoreAlcancavel(inicial: Grid, pais: map<Grid, Option<Grid>>, D: map<Grid, nat>, x: Grid)
    requires Arvore(inicial, pais, D) && x in pais
    ensures Reachable(inicial, x)
    decreases D[x]
  {
    if x == inicial {
      assert CaminhoDe([inicial], inicial) && Last([inicial]) == x;
    } else {
      var y := pais[x].value;
      ArvoreAlcancavel(inicial, pais, D, y);
      var p :| CaminhoDe(p, inicial) && Last(p) == y;
      CaminhoEstende(p, inicial, x);
    }
  }

  /** Every board ever queued is reachable from `inicial`. */
  lemma HistAlcancavel(inicial: Grid, pais: map<Grid, Option<Grid>>, D: map<Grid, nat>, hist: seq<Grid>)
    requires Arvore(inicial, pais, D) && forall x :: x in pais <==> x in hist
    ensures forall x :: x in hist ==> Reachable(inicial, x)
  {
    forall x | x in hist
      ensures Reachable(inicial, x)
    {
      ArvoreAlcancavel(inicial, pais, D, x);
    }
  }

  /** The state `bfs` starts its loop in satisfies the outer invariant. */
  lemma Inicio(inicial: Grid, final: Grid)
    requires IsGrid(inicial)
    ensures Externo(inicial, final, [inicial], {}, map[inicial := None], [inicial], 0, map[inicial := 0])
  {
    MinimoInicial(inicial);
    var pais: map<Grid, Option<Grid>> := map[inicial := None];
    var D: map<Grid, nat> := map[inicial := 0];
    assert Arvore(inicial, pais, D);
    assert Fila([inicial], 0, [inicial], {}, pais, D);
  }

  /**
   * When the head is `final`, the reconstructed path is a chain from
   * `inicial` to `final` no longer than any other, and just `[inicial]`
   * when the two coincide.
   */
  lemma Encontrado(inicial: Grid, final: Grid, fila: seq<Grid>, visitados: set<Grid>,
                   pais: map<Grid, Option<Grid>>, hist: seq<Grid>, k: nat, D: map<Grid, nat>, caminho: seq<Grid>)
    requires Interno(inicial, final, fila, visitados, pais, hist, k, D, final)
    requires |caminho| > 0 && Last(caminho) == final && Get(pais, caminho[0]) == None
    requires forall j :: 0 <= j < |caminho| - 1 ==> Get(pais, caminho[j + 1]) == Some(caminho[j])
    ensures CaminhoDe(caminho, inicial)
    ensures forall p :: CaminhoDe(p, inicial) && Last(p) == final ==> |caminho| <= |p|
    ensures inicial == final ==> caminho == [inicial]
  {
    assert final in hist;
    CaminhoReconstruido(inicial, pais, D, caminho);
    forall p | CaminhoDe(p, inicial) && Last(p) == final
      ensures |caminho| <= |p|
    {
      if |p| <= D[final] + 1 {
        assert D[Last(p)] <= |p| - 1;
      }
    }
    if inicial == final {
      assert D[final] == 0;
      assert |caminho| == 1;
    }
  }

  /** An exhausted queue means `final` cannot be reached. */
  lemma Esgotado(inicial: Grid, final: Grid, visitados: set<Grid>,
                 pais: map<Grid, Option<Grid>>, hist: seq<Grid>, k: nat, D: map<Grid, nat>)
    requires Externo(inicial, final, [], visitados, pais, hist, k, D)
    ensures !Reachable(inicial, final)
    ensures k > 0 && Distinct(hist) && hist[0] == inicial
    ensures forall x :: x in hist <==> Reachable(inicial, x)
  {
    assert k == |hist| && hist[..k] == hist;
    assert inicial in visitados;
    forall v, c | v in visitados && Adjacent(v, c)
      ensures c in visitados
    {
      assert c in pais;
    }
    FechadoBloqueia(visitados, inicial, final);
    HistAlcancavel(inicial, pais, D, hist);
    forall x | Reachable(inicial, x)
      ensures x in hist
    {
      var p :| CaminhoDe(p, inicial) && Last(p) == x;
      FechadoContemCaminho(visitados, inicial, p);
    }
  }

  /** Visiting one more board of the finite universe `U` leaves fewer to visit. */
  lemma RestamMenos(U: set<Grid>, visitados: set<Grid>, x: Grid)
    requires visitados <= U && x in U && x !in visitados
    ensures visitados + {x} <= U && |U - (visitados + {x})| < |U - visitados|
  {
    assert U - visitados == (U - (visitados + {x})) + {x};
  }

  /**
   * `pais` and `fila` extend `pais0` and `fila0` with children of `atual`:
   * no recorded parent is overwritten, every new entry has parent `atual`,
   * and the queue only grows at its tail.
   */
  ghost predicate Estende(pais0: map<Grid, Option<Grid>>, fila0: seq<Grid>, pais: map<Grid, Option<Grid>>, fila: seq<Grid>, atual: Grid) {
    && (forall x :: x in pais0 ==> x in pais && pais[x] == pais0[x])
    && (forall x :: x in pais && x !in pais0 ==> pais[x] == Some(atual))
    && fila0 <= fila
  }

  lemma EstendeMais(pais0: map<Grid, Option<Grid>>, fila0: seq<Grid>, pais1: map<Grid, Option<Grid>>, fila1: seq<Grid>,
                    pais: map<Grid, Option<Grid>>, fila: seq<Grid>, atual: Grid, filho: Grid)
    requires Estende(pais0, fila0, pais1, fila1, atual)
    requires filho !in pais1 ==> pais == pais1[filho := Some(atual)] && fila == fila1 + [filho]
    requires filho in pais1 ==> pais == pais1 && fila == fila1
    ensures Estende(pais0, fila0, pais, fila, atual)
  {
  }

  /**
   * The body of that loop for the child `filhos[i]`: recorded with parent
   * `atual` and queued when it is neither visited nor already in the parent
   * map, left alone otherwise.
   */
  method ConsiderarFilho(ghost inicial: Grid, ghost final: Grid, fila0: seq<Grid>, visitados: set<Grid>,
                         pais0: map<Grid, Option<Grid>>, ghost hist0: seq<Grid>, ghost k: nat, ghost D0: map<Grid, nat>,
                         atual: Grid, filhos: seq<Grid>, i: nat)
    returns (pais: map<Grid, Option<Grid>>, fila: seq<Grid>, ghost hist: seq<Grid>, ghost D: map<Grid, nat>)
    requires Interno(inicial, final, fila0, visitados, pais0, hist0, k, D0, atual)
    requires i < |filhos| && Registrados(filhos, i, pais0, D0, atual) && Adjacent(atual, filhos[i])
    ensures filhos[i] !in pais0 ==> pais == pais0[filhos[i] := Some(atual)] && fila == fila0 + [filhos[i]]
    ensures filhos[i] in pais0 ==> pais == pais0 && fila == fila0
    ensures Interno(inicial, final, fila, visitados, pais, hist, k, D, atual)
    ensures Registrados(filhos, i + 1, pais, D, atual)
  {
    var filho := filhos[i];
    if filho !in visitados && filho !in pais0 {
      Enfileira(inicial, final, fila0, visitados, pais0, hist0, k, D0, atual, filho);
      RegistradosCrescem(filhos, i, pais0, D0, atual);
      pais, fila, hist, D := pais0[filho := Some(atual)], fila0 + [filho], hist0 + [filho], D0[filho := D0[atual] + 1];
    } else {
      JaRegistrado(inicial, final, fila0, visitados, pais0, hist0, k, D0, atual, filho);
      pais, fila, hist, D := pais0, fila0, hist0, D0;
    }
  }

  /**
   * The loop of `bfs` over the children of the head `atual`: every child not
   * yet visited or queued gets `atual` as parent and joins the queue, after
   * which every board one move from `atual` is in the parent map.
   */
  method EnfileirarFilhos(ghost inicial: Grid, ghost final: Grid, fila0: seq<Grid>, visitados: set<Grid>,
                          pais0: map<Grid, Option<Grid>>, ghost hist0: seq<Grid>, ghost k: nat, ghost D0: map<Grid, nat>,
                          atual: Grid)
    returns (pais: map<Grid, Option<Grid>>, fila: seq<Grid>, ghost hist: seq<Grid>, ghost D: map<Grid, nat>)
    requires Interno(inicial, final, fila0, visitados, pais0, hist0, k, D0, atual)
    requires IsGrid(atual) && Blank(atual).Some?
    ensures Estende(pais0, fila0, pais, fila, atual)
    ensures Interno(inicial, final, fila, visitados, pais, hist, k, D, atual)
    ensures forall c :: Adjacent(atual, c) ==> c in pais && c in D && D[c] <= D[atual] + 1
  {
    pais, fila, hist, D := pais0, fila0, hist0, D0;
    var filhos := GerarFilhos(atual);
    for i := 0 to |filhos|
      invariant Estende(pais0, fila0, pais, fila, atual)
      invariant Interno(inicial, final, fila, visitados, pais, hist, k, D, atual)
      invariant Registrados(filhos, i, pais, D, atual)
    {
      FilhoEhAdjacente(atual, filhos[i]);
      ghost var pais1, fila1 := pais, fila;
      pais, fila, hist, D := ConsiderarFilho(inicial, final, fila, visitados, pais, hist, k, D, atual, filhos, i);
      EstendeMais(pais0, fila0, pais1, fila1, pais, fila, atual, filhos[i]);
    }
    TodosRegistrados(atual, filhos, pais, D);
  }

  /**
   * One round of `bfs` past a head `atual` that is not `final`: its
   * children are queued and it is marked visited, which restores the outer
   * invariant with one more board of the universe `U` visited.
   */
  method Expandir(ghost inicial: Grid, ghost final: Grid, fila0: seq<Grid>, visitados0: set<Grid>,
                  pais0: map<Grid, Option<Grid>>, ghost hist0: seq<Grid>, ghost k0: nat, ghost D0: map<Grid, nat>,
                  atual: Grid, ghost U: set<Grid>)
    returns (pais: map<Grid, Option<Grid>>, fila: seq<Grid>, visitados: set<Grid>,
             ghost hist: seq<Grid>, ghost k: nat, ghost D: map<Grid, nat>)
    requires Interno(inicial, final, fila0, visitados0, pais0, hist0, k0, D0, atual) && atual != final
    requires Blank(inicial).Some? && atual in pais0
    requires U == Tabuleiros(set v | v in Cells(inicial)) && visitados0 <= U && atual !in visitados0
    ensures Externo(inicial, final, fila, visitados, pais, hist, k, D) && k > 0
    ensures visitados <= U && |U - visitados| < |U - visitados0|
  {
    MultisetDaChave(inicial, pais0, D0, atual);
    pais, fila, hist, D := EnfileirarFilhos(inicial, final, fila0, visitados0, pais0, hist0, k0, D0, atual);
    Visita(inicial, final, fila, visitados0, pais, hist, k0, D, atual);
    NoEspaco(atual, inicial);
    RestamMenos(U, visitados0, atual);
    visitados := visitados0 + {atual};
    k := k0 + 1;
  }

  /**
   * `bfs`. A path found starts at `inicial`, ends at `final`, is a chain of
   * moves and is no longer than any other such chain; no path means `final`
   * is unreachable. `enfileirados` is the record of the boards put in the
   * queue (the loop invariant `Fila` ties it to the queue and the parent
   * map): each is queued once and is reachable from `inicial`, and when no
   * path is found every board reachable from `inicial` was queued. A start
   * board without a blank makes the source fail unless it is already
   * `final`.
   */
  method Bfs(inicial: Grid, final: Grid) returns (r: Option<seq<Grid>>, ghost enfileirados: seq<Grid>)
    requires IsGrid(inicial) && (Blank(inicial).Some? || inicial == final)
    ensures r.Some? ==> CaminhoDe(r.value, inicial) && Last(r.value) == final
    ensures r.Some? ==> forall p :: CaminhoDe(p, inicial) && Last(p) == final ==> |r.value| <= |p|
    ensures r.None? ==> !Reachable(inicial, final)
    ensures inicial == final ==> r == Some([inicial])
    ensures Distinct(enfileirados) && |enfileirados| > 0 && enfileirados[0] == inicial
    ensures forall x :: x in enfileirados ==> Reachable(inicial, x)
    ensures r.None? ==> forall x :: Reachable(inicial, x) ==> x in enfileirados
  {
    var fila := [inicial];
    var visitados: set<Grid> := {};
    var pais: map<Grid, Option<Grid>> := map[inicial := None];
    ghost var hist := [inicial];
    ghost var k: nat := 0;
    ghost var D: map<Grid, nat> := map[inicial := 0];
    ghost var U := Tabuleiros(set v | v in Cells(inicial));
    Inicio(inicial, final);
    while fila != []
      invariant Externo(inicial, final, fila, visitados, pais, hist, k, D)
      invariant k > 0 ==> Blank(inicial).Some? && inicial != final
      invariant visitados <= U
      decreases |U - visitados|
    {
      Desenfileira(inicial, final, fila, visitados, pais, hist, k, D);
      var atual := fila[0];
      fila := fila[1..];
      if atual == final {
        ArvoreAciclica(inicial, pais, D);
        var caminho := ReconstruirCaminho(pais, atual, D);
        Encontrado(inicial, final, fila, visitados, pais, hist, k, D, caminho);
        HistAlcancavel(inicial, pais, D, hist);
        return Some(caminho), hist;
      }
      pais, fila, visitados, hist, k, D := Expandir(inicial, final, fila, visitados, pais, hist, k, D, atual, U);
    }
    Esgotado(inicial, final, visitados, pais, hist, k, D);
    return None, hist;
  }

  /** Every board in the tree has the start board's tiles, hence a blank when the start has one. */
  lemma MultisetDaChave(inicial: Grid, pais: map<Grid, Option<Grid>>, D: map<Grid, nat>, x: Grid)
    requires Arvore(inicial, pais, D) && x in pais && Blank(inicial).Some?
    ensures IsGrid(x) && Blank(x).Some?
  {
    BlankIffZeroTile(inicial);
    BlankIffZeroTile(x);
  }
}
