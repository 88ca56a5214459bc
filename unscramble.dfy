/**
 * The word-unscramble session screen (JogoPalavras.tsx): a queue of entries,
 * a typed buffer, a shuffled letter pool, hint and skip budgets, a streak,
 * and an optional countdown. Each event handler and each effect is one
 * atomic transition of the `JogoPalavras` object.
 */
module Unscramble {
  import opened Wrappers

  /** One bundled entry: the target word and its hint. */
  datatype Frase = Frase(palavra: string, dica: string)

  /** The 26 lower-case ASCII letters, in order (see `AlfabetoLiteral`). */
  const ALFABETO: string := LetrasAte(26)

  /** The `i`-th lower-case letter. */
  function Letra(i: int): char
    requires 0 <= i < 26
  {
    ('a' as int + i) as char
  }

  /** The first `n` lower-case letters, in order. */
  function LetrasAte(n: nat): (r: string)
    requires n <= 26
    ensures |r| == n && forall i :: 0 <= i < n ==> r[i] == Letra(i)
  {
    if n == 0 then [] else LetrasAte(n - 1) + [Letra(n - 1)]
  }

  function Min(a: int, b: int): int {
    if a <= b then a else b
  }

  // ---------------------------------------------------------------------
  // The JavaScript array and string operations the screen relies on

  /** `s.filter((_, i) => i !== idx)`: `s` without position `idx` (all of `s` when `idx` is out of range). */
  function WithoutIndex<T>(s: seq<T>, idx: int): (r: seq<T>)
    ensures 0 <= idx < |s| ==> |r| == |s| - 1
    ensures 0 <= idx < |s| ==> forall k :: 0 <= k < idx ==> r[k] == s[k]
    ensures 0 <= idx < |s| ==> forall k :: idx <= k < |r| ==> r[k] == s[k + 1]
    ensures !(0 <= idx < |s|) ==> r == s
  {
    if 0 <= idx < |s| then s[..idx] + s[idx + 1..] else s
  }

  /** Dropping one position drops exactly one occurrence of the element there. */
  lemma WithoutIndexMultiset<T>(s: seq<T>, idx: int)
    requires 0 <= idx < |s|
    ensures multiset(WithoutIndex(s, idx)) == multiset(s) - multiset{s[idx]}
  {
    assert s == s[..idx] + [s[idx]] + s[idx + 1..];
  }

  /** `s.findIndex(l => l === c)`: the first position holding `c`, or -1. */
  function FindIndex(s: seq<char>, c: char): (r: int)
    ensures -1 <= r < |s|
    ensures r == -1 <==> c !in s
    ensures r >= 0 ==> s[r] == c && forall k :: 0 <= k < r ==> s[k] != c
  {
    if s == [] then -1
    else if s[0] == c then 0
    else
      var r := FindIndex(s[1..], c);
      if r == -1 then -1 else r + 1
  }

  /** `s.slice(0, n)` for a non-negative `n`. */
  function Take<T>(s: seq<T>, n: nat): (r: seq<T>)
    ensures |r| == Min(n, |s|)
    ensures r <= s
  {
    if n <= |s| then s[..n] else s
  }

  /** `data.filter(f => !solved.includes(f.palavra))`: the entries whose word is not in `solved`. */
  function NaoRespondidas(data: seq<Frase>, solved: seq<string>): (r: seq<Frase>)
    ensures forall f :: f in r <==> f in data && f.palavra !in solved
    ensures |r| <= |data|
  {
    if data == [] then []
    else (if data[0].palavra in solved then [] else [data[0]]) + NaoRespondidas(data[1..], solved)
  }

  /** The filter keeps the original order: filtering a concatenation concatenates the filtered parts. */
  lemma {:induction false} NaoRespondidasConcat(a: seq<Frase>, b: seq<Frase>, solved: seq<string>)
    ensures NaoRespondidas(a + b, solved) == NaoRespondidas(a, solved) + NaoRespondidas(b, solved)
  {
    if a == [] {
      assert a + b == b;
    } else {
      assert (a + b)[1..] == a[1..] + b;
      NaoRespondidasConcat(a[1..], b, solved);
    }
  }

  /** With nothing solved, the filter keeps every entry. */
  lemma {:induction false} NaoRespondidasNothingSolved(data: seq<Frase>)
    ensures NaoRespondidas(data, []) == data
  {
    if data != [] {
      NaoRespondidasNothingSolved(data[1..]);
    }
  }

  /** With an empty solved list, a session of `sprintSize` entries is as long as the data allows. */
  lemma FreshSessionLength(data: seq<Frase>, sprintSize: nat)
    ensures |Take(NaoRespondidas(data, []), sprintSize)| == Min(sprintSize, |data|)
  {
    NaoRespondidasNothingSolved(data);
  }

  /** ASCII lower-casing of one character. */
  function LowerChar(c: char): (d: char)
    ensures 'A' <= c <= 'Z' ==> d as int == c as int + 32
    ensures !('A' <= c <= 'Z') ==> d == c
  {
    if 'A' <= c <= 'Z' then (c as int + 32) as char else c
  }

  /** `s.toLowerCase()`, ASCII letters only. */
  function Lower(s: string): (r: string)
    ensures |r| == |s|
    ensures forall i :: 0 <= i < |s| ==> r[i] == LowerChar(s[i])
  {
    if s == [] then [] else [LowerChar(s[0])] + Lower(s[1..])
  }

  /** The case-insensitive comparison of the typed buffer with the target word. */
  predicate Matches(input: string, palavra: string): (m: bool)
    ensures m ==> |input| == |palavra|
  {
    Lower(input) == Lower(palavra)
  }

  /** A match has the target's length and agrees with it letter by letter up to case; the target matches itself. */
  lemma MatchesMeaning(input: string, palavra: string)
    ensures Matches(input, palavra) <==>
      |input| == |palavra| && forall i :: 0 <= i < |input| ==> LowerChar(input[i]) == LowerChar(palavra[i])
    ensures Matches(palavra, palavra)
  {
    if |input| == |palavra| && forall i :: 0 <= i < |input| ==> LowerChar(input[i]) == LowerChar(palavra[i]) {
      assert Lower(input) == Lower(palavra);
    }
  }

  // ---------------------------------------------------------------------
  // The alphabet and the filler letters

  /** The alphabet is the source's literal `'abcdefghijklmnopqrstuvwxyz'`. */
  lemma AlfabetoLiteral()
    ensures ALFABETO == "abcdefghijklmnopqrstuvwxyz"
  {
    var literal := "abcdefghijklmnopqrstuvwxyz";
    forall i | 0 <= i < 26
      ensures ALFABETO[i] == literal[i]
    {
    }
  }

  predicate Ascending(s: seq<char>) {
    forall i, j :: 0 <= i < j < |s| ==> s[i] < s[j]
  }

  lemma {:induction false} AscendingCountsAtMostOne(s: seq<char>, c: char)
    requires Ascending(s)
    ensures multiset(s)[c] <= 1
  {
    if s != [] {
      assert s == [s[0]] + s[1..];
      AscendingCountsAtMostOne(s[1..], c);
      if s[0] == c {
        assert c !in s[1..];
      }
    }
  }

  lemma TwoOccurrences(s: seq<char>, i: nat, j: nat)
    requires i < j < |s| && s[i] == s[j]
    ensures multiset(s)[s[i]] >= 2
  {
    assert s == s[..i] + [s[i]] + s[i + 1..j] + [s[j]] + s[j + 1..];
  }

  /** Letters drawn without replacement from an ascending sequence are distinct members of it. */
  lemma DrawnWithoutReplacement(fill: seq<char>, from: seq<char>)
    requires Ascending(from)
    requires multiset(fill) <= multiset(from)
    ensures forall i :: 0 <= i < |fill| ==> fill[i] in from
    ensures forall i, j :: 0 <= i < j < |fill| ==> fill[i] != fill[j]
  {
    forall i | 0 <= i < |fill| ensures fill[i] in from {
      assert fill[i] in multiset(fill);
    }
    forall i, j | 0 <= i < j < |fill| ensures fill[i] != fill[j] {
      if fill[i] == fill[j] {
        TwoOccurrences(fill, i, j);
        AscendingCountsAtMostOne(from, fill[i]);
        assert false;
      }
    }
  }

  /** Letters drawn without replacement from the alphabet are distinct lower-case letters a..z. */
  lemma FillerIsDistinctLetters(fill: seq<char>)
    requires multiset(fill) <= multiset(ALFABETO)
    ensures forall i :: 0 <= i < |fill| ==> 'a' <= fill[i] <= 'z'
    ensures forall i, j :: 0 <= i < j < |fill| ==> fill[i] != fill[j]
  {
    AlfabetoIsAscending();
    DrawnWithoutReplacement(fill, ALFABETO);
    forall i | 0 <= i < |fill| ensures 'a' <= fill[i] <= 'z' {
      AlfabetoMembers(fill[i]);
    }
  }

  lemma AlfabetoIsAscending()
    ensures Ascending(ALFABETO)
  {
  }

  lemma AlfabetoMembers(c: char)
    requires c in ALFABETO
    ensures 'a' <= c <= 'z'
  {
  }

  /**
   * A freshly built pool for target `palavra`: its letters are those of the
   * word plus `n` letters drawn without replacement from the alphabet.
   */
  ghost predicate PoolOf(letras: seq<char>, palavra: string, extras: seq<char>, n: int) {
    && |extras| == n
    && DistinctLetters(extras)
    && multiset(letras) == multiset(palavra) + multiset(extras)
  }

  /** Distinct lower-case letters a..z. */
  ghost predicate DistinctLetters(s: seq<char>) {
    && (forall i :: 0 <= i < |s| ==> 'a' <= s[i] <= 'z')
    && (forall i, j :: 0 <= i < j < |s| ==> s[i] != s[j])
  }

  // ---------------------------------------------------------------------
  // Fisher-Yates

  /** `shuffle`: rearranges the array in place; the random index is any index below the one being placed. */
  method Shuffle(a: array<char>)
    modifies a
    ensures multiset(a[..]) == old(multiset(a[..]))
  {
    var currentIndex := a.Length;
    while currentIndex != 0
      invariant 0 <= currentIndex <= a.Length
      invariant multiset(a[..]) == old(multiset(a[..]))
    {
      var randomIndex :| 0 <= randomIndex < currentIndex;
      currentIndex := currentIndex - 1;
      a[currentIndex], a[randomIndex] := a[randomIndex], a[currentIndex];
    }
  }

  /** A fresh array holding `s`, then shuffled: the spread-and-shuffle idiom of the pool effect. */
  method Shuffled(s: seq<char>) returns (r: seq<char>)
    ensures multiset(r) == multiset(s)
    ensures |r| == |s|
  {
    var a := new char[|s|](i requires 0 <= i < |s| => s[i]);
    assert a[..] == s;
    Shuffle(a);
    r := a[..];
    assert |multiset(r)| == |multiset(s)|;
  }

  /** `shuffle(alphabet).slice(0, n)`: `n` letters drawn without replacement from a..z. */
  method SortearLetras(n: nat) returns (sorteadas: seq<char>)
    requires n <= 26
    ensures |sorteadas| == n
    ensures multiset(sorteadas) <= multiset(ALFABETO)
  {
    var alfabeto := Shuffled(ALFABETO);
    sorteadas := alfabeto[..n];
    PrefixSubMultiset(alfabeto, n);
  }

  /** The pool expression of the setup effect: the word's letters and `n` drawn letters, shuffled together. */
  method Embaralhadas(palavra: string, n: nat) returns (letras: seq<char>, ghost extras: seq<char>)
    requires n <= 26
    ensures PoolOf(letras, palavra, extras, n)
  {
    var sorteadas := SortearLetras(n);
    FillerIsDistinctLetters(sorteadas);
    extras := sorteadas;
    letras := Shuffled(palavra + sorteadas);
  }

  lemma PrefixSubMultiset<T>(s: seq<T>, n: nat)
    requires n <= |s|
    ensures multiset(s[..n]) <= multiset(s)
  {
    assert s == s[..n] + s[n..];
  }

  // ---------------------------------------------------------------------
  // The session state and its transitions, as values

  /** Everything the screen keeps in `useState`. */
  datatype Sessao = Sessao(
    frases: seq<Frase>, current: nat, input: string, letras: seq<char>,
    dicasRestantes: int, pulosRestantes: int, tempoRestante: int, timerAtivo: bool,
    loading: bool, palavrasCompletas: nat, streak: nat,
    /** How many alerts whose button calls `onFinishSprint` have been raised. */
    finsAgendados: nat)

  /** An entry is on screen: `frases[current]` exists. */
  predicate NaTela(s: Sessao) {
    s.current < |s.frases|
  }

  /** The target word of the entry on screen. */
  function Alvo(s: Sessao): string
    requires NaTela(s)
  {
    s.frases[s.current].palavra
  }

  /** Every part of the invariant but the buffer bound, which the pool effect re-establishes. */
  predicate EstadoValido(s: Sessao) {
    && s.dicasRestantes >= 0 && s.pulosRestantes >= 0 && s.tempoRestante >= 0
    && (s.frases != [] ==> s.current < |s.frases|)
    && (s.loading ==> s.current == 0)
  }

  predicate BufferCabe(s: Sessao) {
    NaTela(s) ==> |s.input| <= |Alvo(s)|
  }

  /** The session invariant: budgets and time are never negative, `current` indexes the queue, the buffer fits the target. */
  predicate Valido(s: Sessao) {
    EstadoValido(s) && BufferCabe(s)
  }

  /** The multiset of letters held by the buffer and the pool together. */
  function Letras(s: Sessao): multiset<char> {
    multiset(s.input) + multiset(s.letras)
  }

  /** The `useState` initial values. */
  function Inicial(data: seq<Frase>): (s: Sessao)
    ensures Valido(s) && s.loading && s.input == [] && s.letras == []
  {
    Sessao(data, 0, "", [], 2, 1, 60, false, true, 0, 0, 0)
  }

  /**
   * The queue a session starts with: the first `sprintSize` entries of the
   * data not yet solved, or of all the data when the solved list could not
   * be read.
   */
  function FilaDaSessao(data: seq<Frase>, stored: Option<seq<string>>, sprintSize: nat): (q: seq<Frase>)
    ensures var origem := if stored.Some? then NaoRespondidas(data, stored.value) else data;
      |q| == Min(sprintSize, |origem|) && q <= origem
    ensures stored.Some? ==> forall f :: f in q ==> f in data && f.palavra !in stored.value
  {
    match stored
    case Some(respondidasArr) => Take(NaoRespondidas(data, respondidasArr), sprintSize)
    case None => Take(data, sprintSize)
  }

  /** The load effect once storage has answered: new queue, fresh budgets, clock armed in challenge mode. */
  function Carregar(s: Sessao, data: seq<Frase>, sprintSize: nat, modoDesafio: bool, stored: Option<seq<string>>): (t: Sessao)
    ensures t.frases == FilaDaSessao(data, stored, sprintSize)
    ensures t.dicasRestantes == 2 && t.pulosRestantes == 1 && t.tempoRestante == 60
    ensures t.timerAtivo == modoDesafio && !t.loading
    ensures t.current == s.current && t.input == s.input && t.letras == s.letras
    ensures t.palavrasCompletas == s.palavrasCompletas && t.streak == s.streak && t.finsAgendados == s.finsAgendados
    ensures EstadoValido(s) && s.loading ==> EstadoValido(t)
  {
    s.(frases := FilaDaSessao(data, stored, sprintSize), loading := false, dicasRestantes := 2,
       pulosRestantes := 1, tempoRestante := 60, timerAtivo := modoDesafio)
  }

  /**
   * The pool-setup effect, as a relation between the state before and after
   * (the shuffles make it nondeterministic): for a non-empty queue, the
   * buffer is cleared and the pool is the target's letters plus
   * `min(6 + current, 12)` distinct filler letters; nothing else changes.
   */
  ghost predicate PoolPronto(s: Sessao, t: Sessao, extras: seq<char>): (pronto: bool)
    ensures pronto ==> t.(input := s.input, letras := s.letras) == s
    ensures pronto && s.frases == [] ==> t == s
  {
    if s.frases != [] then
      && NaTela(s)
      && t == s.(input := "", letras := t.letras)
      && PoolOf(t.letras, Alvo(s), extras, Min(6 + s.current, 12))
    else t == s
  }

  /** After the pool effect the invariant holds, and the pool holds every letter of the target. */
  lemma PoolProntoValido(s: Sessao, t: Sessao, extras: seq<char>)
    requires EstadoValido(s) && PoolPronto(s, t, extras)
    requires s.frases == [] ==> BufferCabe(s)
    ensures Valido(t)
    ensures s.frases != [] ==> t.input == "" && multiset(Alvo(t)) <= multiset(t.letras)
    ensures s.frases != [] ==> Letras(t) == multiset(Alvo(t)) + multiset(extras)
    ensures s.frases != [] ==> |t.letras| == |Alvo(t)| + Min(6 + s.current, 12)
  {
    if s.frases != [] {
      assert |multiset(t.letras)| == |multiset(Alvo(t)) + multiset(extras)|;
    }
  }

  /** `handleLetra(letra, index)`, where `letra` is the pool letter at `index`. */
  function Tocar(s: Sessao, letra: char, index: nat): (t: Sessao)
    requires NaTela(s) && index < |s.letras| && letra == s.letras[index]
    ensures |s.input| < |Alvo(s)| ==> t.input == s.input + [letra] && t.letras == WithoutIndex(s.letras, index)
    ensures |s.input| >= |Alvo(s)| ==> t == s
    ensures t == s.(input := t.input, letras := t.letras)
    ensures Letras(t) == Letras(s)
    ensures Valido(s) ==> Valido(t)
  {
    if |s.input| < |Alvo(s)| then
      WithoutIndexMultiset(s.letras, index);
      s.(input := s.input + [letra], letras := WithoutIndex(s.letras, index))
    else s
  }

  /** `handleApagar`. */
  function Apagar(s: Sessao): (t: Sessao)
    ensures |s.input| > 0 ==> t.input + [s.input[|s.input| - 1]] == s.input && t.letras == s.letras + [s.input[|s.input| - 1]]
    ensures |s.input| == 0 ==> t == s
    ensures t == s.(input := t.input, letras := t.letras)
    ensures Letras(t) == Letras(s)
    ensures Valido(s) ==> Valido(t)
  {
    if |s.input| > 0 then
      var ultimaLetra := s.input[|s.input| - 1];
      assert s.input == s.input[..|s.input| - 1] + [ultimaLetra];
      s.(input := s.input[..|s.input| - 1], letras := s.letras + [ultimaLetra])
    else s
  }

  /** `revelarLetra`. */
  function Revelar(s: Sessao): (t: Sessao)
    requires NaTela(s)
    ensures s.dicasRestantes > 0 && |s.input| < |Alvo(s)| ==>
      && t.input == s.input + [Alvo(s)[|s.input|]]
      && t.dicasRestantes == s.dicasRestantes - 1
      && t.letras == WithoutIndex(s.letras, FindIndex(s.letras, Alvo(s)[|s.input|]))
    ensures !(s.dicasRestantes > 0 && |s.input| < |Alvo(s)|) ==> t == s
    ensures t == s.(input := t.input, letras := t.letras, dicasRestantes := t.dicasRestantes)
  {
    if s.dicasRestantes > 0 && |s.input| < |Alvo(s)| then
      var letraCorreta := Alvo(s)[|s.input|];
      s.(input := s.input + [letraCorreta], dicasRestantes := s.dicasRestantes - 1,
         letras := WithoutIndex(s.letras, FindIndex(s.letras, letraCorreta)))
    else s
  }

  /** A hint spends one of the budget and never makes it negative. */
  lemma RevelarOrcamento(s: Sessao)
    requires NaTela(s)
    ensures Revelar(s).dicasRestantes <= s.dicasRestantes
    ensures s.dicasRestantes >= 0 ==> Revelar(s).dicasRestantes >= 0
  {
  }

  /**
   * A hint moves the revealed letter from the pool to the buffer when the
   * pool has it, and otherwise adds it to the buffer leaving the pool alone.
   */
  lemma RevelarConserva(s: Sessao)
    requires NaTela(s) && Revelar(s) != s
    ensures Alvo(s)[|s.input|] in s.letras ==> Letras(Revelar(s)) == Letras(s)
    ensures Alvo(s)[|s.input|] !in s.letras ==> Revelar(s).letras == s.letras
  {
    var i := FindIndex(s.letras, Alvo(s)[|s.input|]);
    if i >= 0 {
      WithoutIndexMultiset(s.letras, i);
    }
  }

  /** A hint keeps a buffer that is a prefix of the target a prefix of it, and keeps the invariant. */
  lemma RevelarPrefixo(s: Sessao)
    requires NaTela(s)
    ensures s.input <= Alvo(s) ==> Revelar(s).input <= Alvo(s)
    ensures Valido(s) ==> Valido(Revelar(s))
  {
    if s.dicasRestantes > 0 && |s.input| < |Alvo(s)| && s.input <= Alvo(s) {
      assert Alvo(s)[..|s.input| + 1] == s.input + [Alvo(s)[|s.input|]];
    }
  }

  /** `pularPalavra`, before the pool effect that the new `current` triggers. */
  function Pular(s: Sessao): (t: Sessao)
    ensures s.pulosRestantes > 0 && s.current < |s.frases| - 1 ==>
      t == s.(current := s.current + 1, input := "", pulosRestantes := s.pulosRestantes - 1, streak := 0)
    ensures !(s.pulosRestantes > 0 && s.current < |s.frases| - 1) ==> t == s
    ensures t.frases == s.frases && t.pulosRestantes <= s.pulosRestantes
    ensures Valido(s) && !s.loading ==> Valido(t)
  {
    if s.pulosRestantes > 0 && s.current < |s.frases| - 1 then
      s.(current := s.current + 1, input := "", pulosRestantes := s.pulosRestantes - 1, streak := 0)
    else s
  }

  /** `handleVerificar` has something to check: the countdown has not run out. */
  predicate PodeVerificar(s: Sessao): (pode: bool)
    ensures !pode <==> Tick(s).finsAgendados == s.finsAgendados + 1
  {
    !(s.timerAtivo && s.tempoRestante == 0)
  }

  /** The word on screen is guessed right. */
  predicate Acertou(s: Sessao)
    requires NaTela(s)
  {
    PodeVerificar(s) && Matches(s.input, Alvo(s))
  }

  /**
   * `handleVerificar`, before the pool effect a right answer triggers. A
   * right answer is counted (whatever storage does), extends the streak and
   * removes exactly the entry on screen; an emptied queue stops the clock
   * and raises the completion alert. A wrong answer only resets the streak.
   */
  function Verificar(s: Sessao): (t: Sessao)
    requires NaTela(s)
    ensures !PodeVerificar(s) ==> t == s
    ensures PodeVerificar(s) && !Matches(s.input, Alvo(s)) ==> t == s.(streak := 0)
    ensures Acertou(s) ==>
      && t.palavrasCompletas == s.palavrasCompletas + 1 && t.streak == s.streak + 1
      && t.frases == WithoutIndex(s.frases, s.current)
      && |t.frases| == |s.frases| - 1
      && t.input == s.input && t.letras == s.letras
      && t.dicasRestantes == s.dicasRestantes && t.pulosRestantes == s.pulosRestantes
      && t.tempoRestante == s.tempoRestante && t.loading == s.loading
      && (t.frases == [] ==> t.current == s.current && !t.timerAtivo && t.finsAgendados == s.finsAgendados + 1)
      && (t.frases != [] ==> t.current == 0 && t.timerAtivo == s.timerAtivo && t.finsAgendados == s.finsAgendados)
    ensures EstadoValido(s) ==> EstadoValido(t)
  {
    if !PodeVerificar(s) then s
    else if Matches(s.input, Alvo(s)) then
      WithoutIndexMultiset(s.frases, s.current);
      var novasFrases := WithoutIndex(s.frases, s.current);
      var s1 := s.(palavrasCompletas := s.palavrasCompletas + 1, streak := s.streak + 1);
      if |novasFrases| == 0 then
        s1.(timerAtivo := false, finsAgendados := s.finsAgendados + 1, frases := [])
      else
        s1.(frases := novasFrases, current := 0)
    else s.(streak := 0)
  }

  /** A right answer takes exactly one occurrence of the entry on screen out of the queue. */
  lemma VerificarRemoveUma(s: Sessao)
    requires NaTela(s) && Acertou(s)
    ensures multiset(Verificar(s).frases) == multiset(s.frases) - multiset{s.frases[s.current]}
  {
    WithoutIndexMultiset(s.frases, s.current);
  }

  /**
   * What `handleVerificar` writes to storage: the read list plus the word,
   * when the answer is right, the read succeeded and the write succeeds;
   * otherwise nothing.
   */
  function Gravado(s: Sessao, stored: Option<seq<string>>, writeOk: bool): (gravado: Option<seq<string>>)
    requires NaTela(s)
    ensures gravado.Some? <==> Acertou(s) && stored.Some? && writeOk
    ensures gravado.Some? ==> gravado.value == stored.value + [Alvo(s)]
  {
    if Acertou(s) && stored.Some? && writeOk then Some(stored.value + [Alvo(s)]) else None
  }

  /** One run of the countdown effect: a second off while time is left; at zero, the time-out alert and the clock stops. */
  function Tick(s: Sessao): (t: Sessao)
    ensures s.timerAtivo && s.tempoRestante > 0 ==> t == s.(tempoRestante := s.tempoRestante - 1)
    ensures s.timerAtivo && s.tempoRestante == 0 ==> t == s.(timerAtivo := false, finsAgendados := s.finsAgendados + 1)
    ensures !s.timerAtivo ==> t == s
    ensures Valido(s) ==> Valido(t)
  {
    if s.timerAtivo && s.tempoRestante > 0 then s.(tempoRestante := s.tempoRestante - 1)
    else if s.timerAtivo && s.tempoRestante == 0 then s.(timerAtivo := false, finsAgendados := s.finsAgendados + 1)
    else s
  }

  /** `n` runs of the countdown effect. */
  function Ticks(s: Sessao, n: nat): Sessao
    decreases n
  {
    if n == 0 then s else Ticks(Tick(s), n - 1)
  }

  /**
   * A running countdown with `k` seconds left stops after `k + 1` runs,
   * having raised the time-out alert exactly once, and stays stopped no
   * matter how many more runs follow.
   */
  lemma {:induction false} CountdownFiresOnce(s: Sessao, n: nat)
    requires s.timerAtivo && s.tempoRestante >= 0
    requires n > s.tempoRestante
    decreases n
    ensures Ticks(s, n) == s.(tempoRestante := 0, timerAtivo := false, finsAgendados := s.finsAgendados + 1)
  {
    if s.tempoRestante == 0 {
      StoppedStaysStopped(Tick(s), n - 1);
    } else {
      CountdownFiresOnce(Tick(s), n - 1);
    }
  }

  lemma {:induction false} StoppedStaysStopped(s: Sessao, n: nat)
    requires !s.timerAtivo
    ensures Ticks(s, n) == s
    decreases n
  {
    if n > 0 {
      StoppedStaysStopped(Tick(s), n - 1);
    }
  }

  // ---------------------------------------------------------------------
  // The screen's object

  class JogoPalavras {
    /** The bundled entries and the component's properties. */
    const frasesData: seq<Frase>
    const sprintSize: nat
    const modoDesafio: bool

    var frases: seq<Frase>
    var current: nat
    var input: string
    var letras: seq<char>
    var dicasRestantes: int
    var pulosRestantes: int
    var tempoRestante: int
    var timerAtivo: bool
    var loading: bool
    var palavrasCompletas: nat
    var streak: nat
    var finsAgendados: nat

    /** The fields as one value. */
    function Estado(): Sessao
      reads this
    {
      Sessao(frases, current, input, letras, dicasRestantes, pulosRestantes, tempoRestante, timerAtivo,
             loading, palavrasCompletas, streak, finsAgendados)
    }

    ghost predicate Valid()
      reads this
    {
      Valido(Estado())
    }

    constructor (frasesData: seq<Frase>, sprintSize: nat, modoDesafio: bool)
      ensures Valid()
      ensures this.frasesData == frasesData && this.sprintSize == sprintSize && this.modoDesafio == modoDesafio
      ensures Estado() == Inicial(frasesData)
    {
      this.frasesData := frasesData;
      this.sprintSize := sprintSize;
      this.modoDesafio := modoDesafio;
      frases := frasesData;
      current := 0;
      input := "";
      letras := [];
      dicasRestantes := 2;
      pulosRestantes := 1;
      tempoRestante := 60;
      timerAtivo := false;
      loading := true;
      palavrasCompletas := 0;
      streak := 0;
      finsAgendados := 0;
    }

    /** The pool-setup effect. */
    method PrepararLetras() returns (ghost extras: seq<char>)
      requires EstadoValido(Estado())
      requires frases == [] ==> BufferCabe(Estado())
      modifies this`input, this`letras
      ensures PoolPronto(old(Estado()), Estado(), extras)
      ensures Valid()
    {
      extras := [];
      if |frases| > 0 {
        var extraLetters := Min(6 + current, 12);
        var palavra := frases[current].palavra;
        letras, extras := Embaralhadas(palavra, extraLetters);
        input := "";
      }
      PoolProntoValido(old(Estado()), Estado(), extras);
    }

    /** The load effect once storage has answered, then the pool effect its new queue triggers. */
    method CarregarProgresso(stored: Option<seq<string>>) returns (ghost extras: seq<char>)
      requires Valid() && loading
      modifies this
      ensures PoolPronto(Carregar(old(Estado()), frasesData, sprintSize, modoDesafio, stored), Estado(), extras)
      ensures Valid()
    {
      match stored {
        case Some(respondidasArr) =>
          frases := Take(NaoRespondidas(frasesData, respondidasArr), sprintSize);
        case None =>
          frases := Take(frasesData, sprintSize);
      }
      loading := false;
      dicasRestantes := 2;
      pulosRestantes := 1;
      tempoRestante := 60;
      timerAtivo := modoDesafio;
      extras := PrepararLetras();
    }

    /** `handleLetra`: tapping the pool button at `index`, which shows `letra`. */
    method HandleLetra(letra: char, index: nat)
      requires Valid() && current < |frases|
      requires index < |letras| && letra == letras[index]
      modifies this`input, this`letras
      ensures Estado() == Tocar(old(Estado()), letra, index)
      ensures Valid()
    {
      if |input| < |frases[current].palavra| {
        input := input + [letra];
        letras := WithoutIndex(letras, index);
      }
    }

    /** `handleApagar`. */
    method HandleApagar()
      requires Valid()
      modifies this`input, this`letras
      ensures Estado() == Apagar(old(Estado()))
      ensures Valid()
    {
      if |input| > 0 {
        var ultimaLetra := input[|input| - 1];
        input := input[..|input| - 1];
        letras := letras + [ultimaLetra];
      }
    }

    /** `revelarLetra`. */
    method RevelarLetra()
      requires Valid() && current < |frases|
      modifies this`input, this`letras, this`dicasRestantes
      ensures Estado() == Revelar(old(Estado()))
      ensures Valid()
    {
      if dicasRestantes > 0 {
        var palavra := frases[current].palavra;
        var idx := |input|;
        if idx < |palavra| {
          var letraCorreta := palavra[idx];
          input := input + [letraCorreta];
          dicasRestantes := dicasRestantes - 1;
          letras := WithoutIndex(letras, FindIndex(letras, letraCorreta));
        }
      }
      RevelarPrefixo(old(Estado()));
    }

    /** `pularPalavra`, then the pool effect when `current` moved. */
    method PularPalavra() returns (ghost extras: seq<char>)
      requires Valid() && !loading
      modifies this
      ensures old(Estado()) != Pular(old(Estado())) ==> PoolPronto(Pular(old(Estado())), Estado(), extras)
      ensures old(Estado()) == Pular(old(Estado())) ==> Estado() == old(Estado())
      ensures Valid()
    {
      extras := [];
      if pulosRestantes > 0 {
        if current < |frases| - 1 {
          current := current + 1;
          input := "";
          pulosRestantes := pulosRestantes - 1;
          streak := 0;
          extras := PrepararLetras();
        }
      }
    }

    /**
     * `handleVerificar`. `stored` is what reading the solved list gives
     * (`None` on failure) and `writeOk` whether writing it back succeeds;
     * `gravado` is the list written, `None` when nothing was written.
     */
    method HandleVerificar(stored: Option<seq<string>>, writeOk: bool) returns (gravado: Option<seq<string>>, ghost extras: seq<char>)
      requires Valid() && current < |frases|
      modifies this
      ensures gravado == Gravado(old(Estado()), stored, writeOk)
      ensures Acertou(old(Estado())) ==> PoolPronto(Verificar(old(Estado())), Estado(), extras)
      ensures !Acertou(old(Estado())) ==> Estado() == Verificar(old(Estado()))
      ensures Valid()
    {
      gravado := None;
      extras := [];
      if timerAtivo && tempoRestante == 0 {
        return;
      }
      if Matches(input, frases[current].palavra) {
        if stored.Some? && writeOk {
          gravado := Some(stored.value + [frases[current].palavra]);
        }
        RegistrarAcerto();
        extras := PrepararLetras();
      } else {
        streak := 0;
      }
    }

    /** The state changes of a right answer in `handleVerificar`. */
    method RegistrarAcerto()
      requires Valid() && current < |frases| && Acertou(Estado())
      modifies this
      ensures Estado() == Verificar(old(Estado()))
      ensures EstadoValido(Estado())
    {
      palavrasCompletas := palavrasCompletas + 1;
      streak := streak + 1;
      var novasFrases := WithoutIndex(frases, current);
      if |novasFrases| == 0 {
        timerAtivo := false;
        finsAgendados := finsAgendados + 1;
        frases := [];
      } else {
        frases := novasFrases;
        current := 0;
      }
    }

    /** The countdown effect, once per second while active. */
    method Temporizador()
      requires Valid()
      modifies this`tempoRestante, this`timerAtivo, this`finsAgendados
      ensures Estado() == Tick(old(Estado()))
      ensures Valid()
    {
      if timerAtivo && tempoRestante > 0 {
        tempoRestante := tempoRestante - 1;
      } else if timerAtivo && tempoRestante == 0 {
        finsAgendados := finsAgendados + 1;
        timerAtivo := false;
      }
    }
  }
}
