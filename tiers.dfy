/**
 * The home screen of the word game (TelaInicial.tsx): the fixed tier table,
 * the tier and medal lookups, the progress ratio toward the next tier, and
 * the screen's own small state (which session mode was chosen, whether a
 * session is running, and the progress read from storage).
 */
module Tiers {
  import opened Wrappers

  /** One row of the tier table: a name, an inclusive count range and colours. */
  datatype Nivel = Nivel(nome: string, min: int, max: int, cor: string, gradiente: seq<string>)

  const NIVEIS: seq<Nivel> := [
    Nivel("Bronze", 0, 9, "#CD7F32", ["#CD7F32", "#A0522D"]),
    Nivel("Prata", 10, 90, "#C0C0C0", ["#E5E5E5", "#C0C0C0"]),
    Nivel("Ouro", 91, 200, "#FFD700", ["#FFD700", "#FFA500"]),
    Nivel("Diamante", 201, 999, "#B9F2FF", ["#B9F2FF", "#00CED1"])
  ]

  /** One row of the medal table: a tier name, its lower bound and its emoji. */
  datatype Medalha = Medalha(nome: string, min: int, emoji: string)

  const BRONZE_EMOJI: string := "\U{1F949}"

  const MEDALHAS: seq<Medalha> := [
    Medalha("Bronze", 0, BRONZE_EMOJI),
    Medalha("Prata", 10, "\U{1F948}"),
    Medalha("Ouro", 91, "\U{1F947}"),
    Medalha("Diamante", 201, "\U{1F48E}")
  ]

  predicate InRange(n: Nivel, total: int) {
    n.min <= total <= n.max
  }

  /** `niveis.find(n => total >= n.min && total <= n.max)`: the first row whose range holds `total`. */
  function FindNivel(niveis: seq<Nivel>, total: int): (r: Option<Nivel>)
    ensures r.Some? ==> exists k :: 0 <= k < |niveis| && niveis[k] == r.value && (forall m :: 0 <= m < k ==> !InRange(niveis[m], total))
    ensures r.Some? ==> InRange(r.value, total)
    ensures r.None? <==> forall k :: 0 <= k < |niveis| ==> !InRange(niveis[k], total)
  {
    if niveis == [] then None
    else if InRange(niveis[0], total) then Some(niveis[0])
    else
      var r := FindNivel(niveis[1..], total);
      assert r.Some? ==> exists k :: 0 <= k < |niveis| && niveis[k] == r.value && (forall m :: 0 <= m < k ==> !InRange(niveis[m], total)) by {
        if r.Some? {
          var k :| 0 <= k < |niveis[1..]| && niveis[1..][k] == r.value && (forall m :: 0 <= m < k ==> !InRange(niveis[1..][m], total));
          assert niveis[k + 1] == r.value;
          assert forall m :: 0 <= m < k + 1 ==> !InRange(niveis[m], total) by {
            forall m | 0 <= m < k + 1 ensures !InRange(niveis[m], total) {
              if m > 0 { assert niveis[m] == niveis[1..][m - 1]; }
            }
          }
        }
      }
      assert r.None? ==> forall k :: 0 <= k < |niveis| ==> !InRange(niveis[k], total) by {
        if r.None? {
          forall k | 0 <= k < |niveis| ensures !InRange(niveis[k], total) {
            if k > 0 { assert niveis[k] == niveis[1..][k - 1]; }
          }
        }
      }
      r
  }

  /** The tier of a solved-word count: the first matching row, else the first row. */
  function GetNivel(total: int): (n: Nivel)
    ensures n in NIVEIS
    ensures InRange(n, total) || (n == NIVEIS[0] && forall k :: 0 <= k < |NIVEIS| ==> !InRange(NIVEIS[k], total))
  {
    FindNivel(NIVEIS, total).GetOr(NIVEIS[0])
  }

  /** `medalhas.find(m => nome === m.nome)?.emoji`: the emoji of the first row with that name. */
  function FindMedalha(medalhas: seq<Medalha>, nome: string): (r: Option<string>)
    ensures r.Some? <==> exists k :: 0 <= k < |medalhas| && medalhas[k].nome == nome
    ensures r.Some? ==> exists k :: 0 <= k < |medalhas| && medalhas[k].nome == nome && medalhas[k].emoji == r.value
                                   && forall m :: 0 <= m < k ==> medalhas[m].nome != nome
  {
    if medalhas == [] then None
    else if medalhas[0].nome == nome then Some(medalhas[0].emoji)
    else
      var r := FindMedalha(medalhas[1..], nome);
      assert (exists k :: 0 <= k < |medalhas| && medalhas[k].nome == nome) ==> r.Some? by {
        if k :| 0 <= k < |medalhas| && medalhas[k].nome == nome {
          assert medalhas[1..][k - 1] == medalhas[k];
        }
      }
      assert r.Some? ==> exists k :: 0 <= k < |medalhas| && medalhas[k].nome == nome && medalhas[k].emoji == r.value
                                     && forall m :: 0 <= m < k ==> medalhas[m].nome != nome by {
        if r.Some? {
          var k :| 0 <= k < |medalhas[1..]| && medalhas[1..][k].nome == nome && medalhas[1..][k].emoji == r.value
                   && forall m :: 0 <= m < k ==> medalhas[1..][m].nome != nome;
          assert medalhas[k + 1] == medalhas[1..][k];
          forall m | 0 <= m < k + 1 ensures medalhas[m].nome != nome {
            if m > 0 { assert medalhas[m] == medalhas[1..][m - 1]; }
          }
        }
      }
      r
  }

  /** The medal shown for a tier name, with the bronze emoji as fallback. */
  function MedalFor(nome: string): (e: string)
    ensures (exists k :: 0 <= k < |MEDALHAS| && MEDALHAS[k].nome == nome && MEDALHAS[k].emoji == e
                         && forall m :: 0 <= m < k ==> MEDALHAS[m].nome != nome)
            || (e == BRONZE_EMOJI && forall k :: 0 <= k < |MEDALHAS| ==> MEDALHAS[k].nome != nome)
  {
    FindMedalha(MEDALHAS, nome).GetOr(BRONZE_EMOJI)
  }

  /** `NIVEIS.find(n => n.min > total)`: the first tier still ahead of `total`. */
  function ProximoNivel(niveis: seq<Nivel>, total: int): (r: Option<Nivel>)
    ensures r.Some? ==> exists k :: 0 <= k < |niveis| && niveis[k] == r.value && (forall m :: 0 <= m < k ==> niveis[m].min <= total)
    ensures r.Some? ==> r.value.min > total
    ensures r.None? <==> forall k :: 0 <= k < |niveis| ==> niveis[k].min <= total
  {
    if niveis == [] then None
    else if niveis[0].min > total then Some(niveis[0])
    else
      var r := ProximoNivel(niveis[1..], total);
      assert r.Some? ==> exists k :: 0 <= k < |niveis| && niveis[k] == r.value && (forall m :: 0 <= m < k ==> niveis[m].min <= total) by {
        if r.Some? {
          var k :| 0 <= k < |niveis[1..]| && niveis[1..][k] == r.value && (forall m :: 0 <= m < k ==> niveis[1..][m].min <= total);
          assert niveis[k + 1] == r.value;
          forall m | 0 <= m < k + 1 ensures niveis[m].min <= total {
            if m > 0 { assert niveis[m] == niveis[1..][m - 1]; }
          }
        }
      }
      assert r.None? ==> forall k :: 0 <= k < |niveis| ==> niveis[k].min <= total by {
        if r.None? {
          forall k | 0 <= k < |niveis| ensures niveis[k].min <= total {
            if k > 0 { assert niveis[k] == niveis[1..][k - 1]; }
          }
        }
      }
      r
  }

  /** An exact fraction `num / den`; JavaScript computes it as a float. */
  datatype Ratio = Ratio(num: int, den: int)

  /**
   * `calcularProgresso`: progress of `total` from the current tier's lower
   * bound toward the next tier's (the last tier when none is ahead); exactly 1
   * when that distance is not positive.
   */
  function CalcularProgresso(total: int, atual: Nivel): (r: Ratio)
    ensures r.den > 0
  {
    var prox := ProximoNivel(NIVEIS, total).GetOr(NIVEIS[|NIVEIS| - 1]);
    var totalNecessario := prox.min - atual.min;
    if totalNecessario > 0 then Ratio(total - atual.min, totalNecessario) else Ratio(1, 1)
  }

  // ---------------------------------------------------------------------
  // Properties of the fixed table

  /** The four ranges are ordered, contiguous and cover 0..999. */
  lemma TableIsPartition()
    ensures NIVEIS[0].min == 0 && NIVEIS[|NIVEIS| - 1].max == 999
    ensures forall k :: 0 <= k < |NIVEIS| ==> NIVEIS[k].min <= NIVEIS[k].max
    ensures forall k :: 0 <= k < |NIVEIS| - 1 ==> NIVEIS[k].max + 1 == NIVEIS[k + 1].min
  {
  }

  /** At most one tier holds any count, so "first match" is "the match". */
  lemma AtMostOneTier(total: int, a: nat, b: nat)
    requires a < |NIVEIS| && b < |NIVEIS|
    requires InRange(NIVEIS[a], total) && InRange(NIVEIS[b], total)
    ensures a == b
  {
    if a < b {
      TierBoundsOrdered(a, b);
      assert false;
    } else if b < a {
      TierBoundsOrdered(b, a);
      assert false;
    }
  }

  lemma {:induction false} TierBoundsOrdered(a: nat, b: nat)
    requires a < b < |NIVEIS|
    ensures NIVEIS[a].max < NIVEIS[b].min
  {
    TableIsPartition();
    if a + 1 < b {
      TierBoundsOrdered(a, b - 1);
    }
  }

  /** The tier of every count: 0..9 Bronze, 10..90 Prata, 91..200 Ouro, 201..999 Diamante, otherwise the Bronze fallback. */
  lemma GetNivelByRange(total: int)
    ensures GetNivel(total).nome ==
      if 0 <= total <= 9 then "Bronze"
      else if 10 <= total <= 90 then "Prata"
      else if 91 <= total <= 200 then "Ouro"
      else if 201 <= total <= 999 then "Diamante"
      else "Bronze"
    ensures (total < 0 || total > 999) ==> GetNivel(total) == NIVEIS[0]
  {
    var n := GetNivel(total);
    if total < 0 || total > 999 {
      assert !InRange(n, total);
    } else {
      var k0 := if total <= 9 then 0 else if total <= 90 then 1 else if total <= 200 then 2 else 3;
      assert InRange(NIVEIS[k0], total);
      var j :| 0 <= j < |NIVEIS| && NIVEIS[j] == n;
      AtMostOneTier(total, j, k0);
    }
  }

  /** The boundary counts of each range resolve to their tiers. */
  lemma GetNivelExamples()
    ensures GetNivel(0).nome == "Bronze" && GetNivel(9).nome == "Bronze"
    ensures GetNivel(10).nome == "Prata" && GetNivel(90).nome == "Prata"
    ensures GetNivel(91).nome == "Ouro" && GetNivel(200).nome == "Ouro"
    ensures GetNivel(201).nome == "Diamante"
  {
    GetNivelByRange(0); GetNivelByRange(9); GetNivelByRange(10); GetNivelByRange(90);
    GetNivelByRange(91); GetNivelByRange(200); GetNivelByRange(201);
  }

  /** Every tier name has a medal row, so the bronze fallback is never used for a resolved tier. */
  lemma EveryTierHasMedal(total: int)
    ensures FindMedalha(MEDALHAS, GetNivel(total).nome).Some?
    ensures MedalFor(GetNivel(total).nome) ==
      if 10 <= total <= 90 then "\U{1F948}"
      else if 91 <= total <= 200 then "\U{1F947}"
      else if 201 <= total <= 999 then "\U{1F48E}"
      else BRONZE_EMOJI
  {
    GetNivelByRange(total);
    var nome := GetNivel(total).nome;
    if nome == "Bronze" { assert MEDALHAS[0].nome == nome; }
    else if nome == "Prata" { assert MEDALHAS[1].nome == nome; }
    else if nome == "Ouro" { assert MEDALHAS[2].nome == nome; }
    else { assert MEDALHAS[3].nome == nome; }
  }

  /** The next tier is missing exactly from 201 on, which is when the progress bar is hidden. */
  lemma ProximoNivelAbsent(total: int)
    ensures ProximoNivel(NIVEIS, total).None? <==> total >= 201
  {
    if total < 201 {
      assert NIVEIS[3].min > total;
    }
  }

  /**
   * With the current tier resolved from the count: progress lies in [0, 1)
   * up to 200, is exactly 1 from 201 to 999 and for negative counts, and
   * exceeds 1 from 1000 on (those counts fall back to Bronze while the
   * target is Diamante; the bar is hidden there).
   */
  lemma ProgressBounds(total: int)
    ensures var r := CalcularProgresso(total, GetNivel(total));
      && (0 <= total <= 200 ==> 0 <= r.num < r.den)
      && (0 <= total <= 9 ==> r == Ratio(total, 10))
      && (10 <= total <= 90 ==> r == Ratio(total - 10, 81))
      && (91 <= total <= 200 ==> r == Ratio(total - 91, 110))
      && (total >= 1000 ==> r == Ratio(total, 201))
      && ((201 <= total <= 999 || total < 0) ==> r == Ratio(1, 1))
      && (total >= 1000 ==> r.num > r.den)
  {
    ProximoNivelAbsent(total);
    if 0 <= total <= 200 {
      NivelDaFaixa(total);
      ProximoDaFaixa(total);
    } else if 201 <= total <= 999 {
      NivelDaFaixa(total);
    } else {
      GetNivelByRange(total);
      if total < 0 {
        assert ProximoNivel(NIVEIS, total) == Some(NIVEIS[0]);
      }
    }
  }

  /** The row of the table a count from 0 to 999 resolves to. */
  lemma NivelDaFaixa(total: int)
    requires 0 <= total <= 999
    ensures GetNivel(total) == NIVEIS[if total <= 9 then 0 else if total <= 90 then 1 else if total <= 200 then 2 else 3]
  {
    var k0 := if total <= 9 then 0 else if total <= 90 then 1 else if total <= 200 then 2 else 3;
    assert InRange(NIVEIS[k0], total);
    var n := GetNivel(total);
    assert InRange(n, total);
    var j :| 0 <= j < |NIVEIS| && NIVEIS[j] == n;
    AtMostOneTier(total, j, k0);
  }

  /** The next tier of a count from 0 to 200: the row after its own. */
  lemma ProximoDaFaixa(total: int)
    requires 0 <= total <= 200
    ensures ProximoNivel(NIVEIS, total) == Some(NIVEIS[if total <= 9 then 1 else if total <= 90 then 2 else 3])
  {
    ProximoNivelAbsent(total);
    var prox := ProximoNivel(NIVEIS, total);
    var k :| 0 <= k < |NIVEIS| && NIVEIS[k] == prox.value && (forall m :: 0 <= m < k ==> NIVEIS[m].min <= total);
    var k1 := if total <= 9 then 1 else if total <= 90 then 2 else 3;
    assert k == k1 by {
      assert NIVEIS[k1].min > total;
      assert forall m :: 0 <= m < k1 ==> NIVEIS[m].min <= total;
    }
  }


  // ---------------------------------------------------------------------
  // The screen's state

  /** What the home screen keeps: session running, mode flag, and the progress shown. */
  datatype Home = Home(iniciar: bool, modoDesafio: bool, palavrasAprendidas: int, nivelAtual: Nivel, medalha: string)

  /** The `useState` initial values. */
  const HOME_INICIAL: Home := Home(false, false, 0, NIVEIS[0], BRONZE_EMOJI)

  /** The initial values agree with each other: no session, the tier of count 0 and its medal. */
  lemma HomeInicialConsistente()
    ensures Sessao(HOME_INICIAL).None? && !HOME_INICIAL.modoDesafio
    ensures HOME_INICIAL.nivelAtual == GetNivel(HOME_INICIAL.palavrasAprendidas)
    ensures HOME_INICIAL.medalha == MedalFor(HOME_INICIAL.nivelAtual.nome)
  {
    assert InRange(NIVEIS[0], 0);
    assert MEDALHAS[0].nome == NIVEIS[0].nome;
  }

  /** The properties a mounted session screen receives. */
  datatype SessaoProps = SessaoProps(sprintSize: nat, modoDesafio: bool)

  /** The session screen shown instead of the home screen, if any. */
  function Sessao(h: Home): Option<SessaoProps> {
    if h.iniciar then Some(SessaoProps(10, h.modoDesafio)) else None
  }

  /**
   * The progress-loading effect. `stored` is the solved-word list read from
   * storage (an absent key reads as `Some([])`), `None` when reading or
   * parsing failed.
   */
  function CarregarProgresso(h: Home, stored: Option<seq<string>>): (h': Home)
    ensures h'.iniciar == h.iniciar && h'.modoDesafio == h.modoDesafio
    ensures h'.nivelAtual == GetNivel(h'.palavrasAprendidas)
    ensures h'.medalha == MedalFor(h'.nivelAtual.nome)
    ensures stored.Some? ==> h'.palavrasAprendidas == |stored.value|
    ensures stored.None? ==> h'.palavrasAprendidas == 0 && h'.nivelAtual.nome == "Bronze" && h'.medalha == BRONZE_EMOJI
  {
    match stored
    case Some(arr) =>
      var nivel := GetNivel(|arr|);
      h.(palavrasAprendidas := |arr|, nivelAtual := nivel, medalha := FindMedalha(MEDALHAS, nivel.nome).GetOr(BRONZE_EMOJI))
    case None =>
      assert GetNivel(0) == NIVEIS[0] by { assert InRange(NIVEIS[0], 0); }
      h.(palavrasAprendidas := 0, nivelAtual := NIVEIS[0], medalha := BRONZE_EMOJI)
  }

  /** "Jogo Normal": an untimed session of ten words. */
  function JogoNormal(h: Home): (h': Home)
    ensures Sessao(h') == Some(SessaoProps(10, false))
  {
    h.(modoDesafio := false, iniciar := true)
  }

  /** "Modo Desafio": a timed session of ten words. */
  function ModoDesafio(h: Home): (h': Home)
    ensures Sessao(h') == Some(SessaoProps(10, true))
  {
    h.(modoDesafio := true, iniciar := true)
  }

  /** The session's completion callback: back to the home screen, whose progress effect runs again. */
  function FimSessao(h: Home, stored: Option<seq<string>>): (h': Home)
    ensures Sessao(h').None?
    ensures h'.modoDesafio == h.modoDesafio
    ensures h'.nivelAtual == GetNivel(h'.palavrasAprendidas)
  {
    CarregarProgresso(h.(iniciar := false), stored)
  }

  /** Whether the "next tier" box and its progress bar are shown. */
  function MostraProximo(h: Home): (shown: bool)
    ensures shown <==> h.palavrasAprendidas < 201
  {
    ProximoNivelAbsent(h.palavrasAprendidas);
    ProximoNivel(NIVEIS, h.palavrasAprendidas).Some?
  }
}
