# Verified model of the word game and the 8-puzzle solver

This project models three parts of the repository in Dafny and proves their properties.

- **The word-unscramble session screen** (`JogoPalavras.tsx`), module `Unscramble`. The session holds:
  - a queue of entries (`frases`) and the index `current`;
  - a typed buffer (`input`) and a pool of letter buttons (`letras`);
  - hint and skip budgets, a streak, a count of completed words, and an optional 60-second countdown.

  Each event handler and each effect of the screen is one atomic step of the class `JogoPalavras`, whose fields are the component's state. Every step is proved equal to a pure transition function on the `Sessao` value (`Tocar`, `Apagar`, `Revelar`, `Pular`, `Verificar`, `Tick`, `Carregar`), or related to one by a predicate (`PoolPronto`). The properties are proved about those functions:
  - the buffer never outgrows the target word;
  - the budgets and the clock never go negative;
  - buffer and pool together keep their letters;
  - a right answer removes exactly the entry on screen;
  - the countdown raises its time-out alert exactly once.

  `shuffle` is an in-place Fisher–Yates loop on an `array`. It is proved to be a permutation, with the random index left as a nondeterministic choice.
- **The home screen's tiers and progress** (`TelaInicial.tsx`), module `Tiers`. It covers:
  - the four-row tier table and the first-match tier lookup with its Bronze fallback;
  - the medal lookup by name and the progress ratio toward the next tier;
  - the screen's progress-loading effect and its mode buttons.

  These are pure functions with exact expected outputs.
- **The 8-puzzle breadth-first solver** (`app.py`), module `Puzzle`. It covers blank location, child generation, parent-map path reconstruction, and `bfs` with its queue, parent map and visited set.
  - The imperative functions are methods with loops.
  - The move relation `Adjacent` is defined independently of the move table.
  - `Bfs` is proved to return a chain of moves from the start to the goal that is no longer than any other such chain, or nothing exactly when the goal is unreachable.
  - Termination follows from every board in the parent map having the start board's tiles, which bounds the boards the search can visit.

Module `Wrappers` holds the `Option` type.

Storage, randomness, timers and the console are not modelled as such. Instead:
- The solved-word list read from storage is an input `Option<seq<string>>`, where `None` means the read or the parse failed.
- A write to storage is an input success flag.
- The random choices are nondeterministic `:|` choices.
- Each timer callback is one call of `Temporizador`.
- An alert whose button calls `onFinishSprint` is counted in the field `finsAgendados`.

Two points where the code's behaviour is easy to misread, and the model follows the code:
- **Counters after a right answer.** `handleVerificar` (JogoPalavras.tsx:180-188) swallows storage errors in an empty `catch` and only then increments the completed count and the streak. A right answer is therefore counted even when the read or the write fails, not only after a successful write. `Verificar` and `JogoPalavras.HandleVerificar` model that, and only the written list (`Gravado`) depends on storage succeeding.
- **Progress at the top tier.** For counts from 201 to 999, `calcularProgresso` (TelaInicial.tsx:88-93) falls back to the last tier as the target. Its distance is then 0, so the function returns 1 rather than 0 (`ProgressBounds`).

## Model

Source paths below are relative to the repository root.

| member | source | states |
|---|---|---|
| `Tiers.FindNivel` | front/MobilePlay/jogoMobile/saibamais/components/TelaInicial.tsx:27 | the `find` returns a row whose range holds the count, with no earlier row holding it, and returns nothing exactly when no row holds it |
| `Tiers.GetNivel` | front/MobilePlay/jogoMobile/saibamais/components/TelaInicial.tsx:26-28 | the tier is a table row whose range holds the count, or Bronze when no row holds it |
| `Tiers.TableIsPartition` | front/MobilePlay/jogoMobile/saibamais/components/TelaInicial.tsx:19-24 | the four ranges start at 0, end at 999, are non-empty, and each starts right after the previous one |
| `Tiers.AtMostOneTier` | front/MobilePlay/jogoMobile/saibamais/components/TelaInicial.tsx:19-27 | no count lies in two tiers, so the first match is the only match |
| `Tiers.GetNivelByRange` | front/MobilePlay/jogoMobile/saibamais/components/TelaInicial.tsx:19-27 | 0..9 Bronze, 10..90 Prata, 91..200 Ouro, 201..999 Diamante; negative counts and counts of 1000 or more fall back to Bronze |
| `Tiers.GetNivelExamples` | front/MobilePlay/jogoMobile/saibamais/components/TelaInicial.tsx:19-27 | counts 0, 9, 10, 90, 91, 200, 201 give Bronze, Bronze, Prata, Prata, Ouro, Ouro, Diamante |
| `Tiers.FindMedalha` | front/MobilePlay/jogoMobile/saibamais/components/TelaInicial.tsx:54 | a medal is found exactly when some row has the name, and it is the emoji of the first such row |
| `Tiers.MedalFor` | front/MobilePlay/jogoMobile/saibamais/components/TelaInicial.tsx:54 | the medal is the emoji of the first row with the tier's name, or the bronze emoji when no row has it |
| `Tiers.EveryTierHasMedal` | front/MobilePlay/jogoMobile/saibamais/components/TelaInicial.tsx:30-35 | every resolved tier name has a medal row, so the bronze default is never needed; gives the emoji for each count range |
| `Tiers.ProximoNivel` | front/MobilePlay/jogoMobile/saibamais/components/TelaInicial.tsx:89 | the next tier is the first row with a lower bound above the count, and is missing exactly when no row has one |
| `Tiers.ProximoNivelAbsent` | front/MobilePlay/jogoMobile/saibamais/components/TelaInicial.tsx:100 | the next tier is missing exactly from 201 on |
| `Tiers.CalcularProgresso` | front/MobilePlay/jogoMobile/saibamais/components/TelaInicial.tsx:88-93 | the ratio is exact and its denominator is positive: the 1 of the fallback branch is `1/1` |
| `Tiers.ProgressBounds` | front/MobilePlay/jogoMobile/saibamais/components/TelaInicial.tsx:88-93 | with the tier resolved from the count, progress is exactly `c/10` for 0..9, `(c-10)/81` for 10..90 and `(c-91)/110` for 91..200, so in [0, 1) there; exactly 1 for 201..999 and for negative counts; `c/201`, above 1, from 1000 on |
| `Tiers.NivelDaFaixa` | front/MobilePlay/jogoMobile/saibamais/components/TelaInicial.tsx:19-27 | a count from 0 to 999 resolves to the one row whose range holds it |
| `Tiers.ProximoDaFaixa` | front/MobilePlay/jogoMobile/saibamais/components/TelaInicial.tsx:89 | the next tier of a count from 0 to 200 is the row after its own |
| `Tiers.HomeInicialConsistente` | front/MobilePlay/jogoMobile/saibamais/components/TelaInicial.tsx:38-42 | the initial state shows no session, the untimed mode, the tier of count 0 and that tier's medal |
| `Tiers.CarregarProgresso` | front/MobilePlay/jogoMobile/saibamais/components/TelaInicial.tsx:46-59 | the count is the stored list's length, and the tier and medal are the ones it resolves to; a failed read gives count 0, Bronze and the bronze medal; the mode flags are untouched |
| `Tiers.JogoNormal` | front/MobilePlay/jogoMobile/saibamais/components/TelaInicial.tsx:225 | starts an untimed session of 10 words |
| `Tiers.ModoDesafio` | front/MobilePlay/jogoMobile/saibamais/components/TelaInicial.tsx:242 | starts a timed session of 10 words |
| `Tiers.FimSessao` | front/MobilePlay/jogoMobile/saibamais/components/TelaInicial.tsx:96 | the completion callback returns to the home screen, keeps the mode, and reloads a consistent tier |
| `Tiers.MostraProximo` | front/MobilePlay/jogoMobile/saibamais/components/TelaInicial.tsx:162 | the next-tier box and the progress bar are shown exactly for counts below 201 |
| `Unscramble.Shuffle` | front/MobilePlay/jogoMobile/saibamais/components/JogoPalavras.tsx:22-30 | the in-place loop that swaps each position with a random earlier-or-equal one leaves the array a permutation of its old contents |
| `Unscramble.Shuffled` | front/MobilePlay/jogoMobile/saibamais/components/JogoPalavras.tsx:107 | shuffling a fresh copy of a sequence gives a permutation of it |
| `Unscramble.SortearLetras` | front/MobilePlay/jogoMobile/saibamais/components/JogoPalavras.tsx:107 | the first `n` letters of a shuffled alphabet are `n` letters drawn without replacement from a..z |
| `Unscramble.AlfabetoLiteral` | front/MobilePlay/jogoMobile/saibamais/components/JogoPalavras.tsx:107 | the alphabet is the literal `abcdefghijklmnopqrstuvwxyz` |
| `Unscramble.FillerIsDistinctLetters` | front/MobilePlay/jogoMobile/saibamais/components/JogoPalavras.tsx:107 | letters drawn without replacement from the alphabet are distinct lower-case letters |
| `Unscramble.Embaralhadas` | front/MobilePlay/jogoMobile/saibamais/components/JogoPalavras.tsx:105-107 | the pool is a permutation of the word's letters plus `n` distinct filler letters |
| `Unscramble.WithoutIndex` | front/MobilePlay/jogoMobile/saibamais/components/JogoPalavras.tsx:154-155 | removing one in-range position shifts the later elements down by one; an out-of-range position removes nothing |
| `Unscramble.WithoutIndexMultiset` | front/MobilePlay/jogoMobile/saibamais/components/JogoPalavras.tsx:154-155 | removing a position removes exactly one occurrence of its element |
| `Unscramble.FindIndex` | front/MobilePlay/jogoMobile/saibamais/components/JogoPalavras.tsx:230 | the first position holding the letter, or -1 exactly when the letter is absent |
| `Unscramble.Take` | front/MobilePlay/jogoMobile/saibamais/components/JogoPalavras.tsx:70 | `slice(0, n)` is the prefix of length `min(n, length)` |
| `Unscramble.NaoRespondidas` | front/MobilePlay/jogoMobile/saibamais/components/JogoPalavras.tsx:69 | the filter keeps exactly the entries whose word is not in the solved list |
| `Unscramble.NaoRespondidasConcat` | front/MobilePlay/jogoMobile/saibamais/components/JogoPalavras.tsx:69 | the filter keeps the original order: it distributes over concatenation |
| `Unscramble.NaoRespondidasNothingSolved` | front/MobilePlay/jogoMobile/saibamais/components/JogoPalavras.tsx:69 | with an empty solved list the filter keeps every entry, in order |
| `Unscramble.FreshSessionLength` | front/MobilePlay/jogoMobile/saibamais/components/JogoPalavras.tsx:68-70 | with nothing solved, the session has `min(sprintSize, entries)` entries |
| `Unscramble.Lower` | front/MobilePlay/jogoMobile/saibamais/components/JogoPalavras.tsx:178 | lower-casing keeps the length and lower-cases each ASCII letter |
| `Unscramble.Matches` | front/MobilePlay/jogoMobile/saibamais/components/JogoPalavras.tsx:178 | a match has the target's length (the full characterisation is `MatchesMeaning`) |
| `Unscramble.MatchesMeaning` | front/MobilePlay/jogoMobile/saibamais/components/JogoPalavras.tsx:178 | the answer matches exactly when it has the target's length and agrees with it letter by letter up to case; the target matches itself |
| `Unscramble.Inicial` | front/MobilePlay/jogoMobile/saibamais/components/JogoPalavras.tsx:45-55 | the initial state is loading, with an empty buffer and pool, and satisfies the session invariant |
| `Unscramble.FilaDaSessao` | front/MobilePlay/jogoMobile/saibamais/components/JogoPalavras.tsx:64-72 | the queue is the length-`min(sprintSize, n)` prefix of the unsolved entries, or of all entries when storage failed; every unsolved entry in it is from the data and not solved |
| `Unscramble.Carregar` | front/MobilePlay/jogoMobile/saibamais/components/JogoPalavras.tsx:64-78 | the load sets the queue, 2 hints, 1 skip, 60 seconds, arms the clock exactly in challenge mode, ends loading, and changes nothing else |
| `Unscramble.PoolPronto` | front/MobilePlay/jogoMobile/saibamais/components/JogoPalavras.tsx:103-109 | the pool effect changes only the buffer and the pool, and changes nothing when the queue is empty |
| `Unscramble.PoolProntoValido` | front/MobilePlay/jogoMobile/saibamais/components/JogoPalavras.tsx:103-109 | after pool setup the buffer is empty, the pool holds every letter of the target plus the filler and is `min(6 + current, 12)` letters longer than the target, and the invariant holds |
| `Unscramble.Tocar` | front/MobilePlay/jogoMobile/saibamais/components/JogoPalavras.tsx:149-161 | while the buffer is shorter than the target, a tap appends the tapped letter and removes exactly that pool position; otherwise nothing changes; buffer plus pool keeps its letters; the invariant is kept |
| `Unscramble.Apagar` | front/MobilePlay/jogoMobile/saibamais/components/JogoPalavras.tsx:163-173 | backspace moves the last buffer letter to the end of the pool and does nothing on an empty buffer; letters are conserved; the invariant is kept |
| `Unscramble.Revelar` | front/MobilePlay/jogoMobile/saibamais/components/JogoPalavras.tsx:219-237 | with a hint left and the buffer incomplete, a hint appends the next target letter, spends one hint, and removes that letter's first pool occurrence; otherwise nothing changes |
| `Unscramble.RevelarOrcamento` | front/MobilePlay/jogoMobile/saibamais/components/JogoPalavras.tsx:220-226 | hints never increase and never go below 0 |
| `Unscramble.RevelarConserva` | front/MobilePlay/jogoMobile/saibamais/components/JogoPalavras.tsx:224-232 | a hint whose letter is in the pool conserves buffer plus pool; when the letter is absent the pool is unchanged |
| `Unscramble.RevelarPrefixo` | front/MobilePlay/jogoMobile/saibamais/components/JogoPalavras.tsx:221-225 | a buffer that is a prefix of the target stays one after a hint; the invariant is kept |
| `Unscramble.Pular` | front/MobilePlay/jogoMobile/saibamais/components/JogoPalavras.tsx:239-249 | with a skip left and a later entry, a skip advances `current`, clears the buffer, spends one skip and resets the streak; otherwise nothing changes; the queue is never changed |
| `Unscramble.PodeVerificar` | front/MobilePlay/jogoMobile/saibamais/components/JogoPalavras.tsx:176 | a submission is refused exactly when the countdown effect would raise the time-out alert: the clock is running at zero |
| `Unscramble.Verificar` | front/MobilePlay/jogoMobile/saibamais/components/JogoPalavras.tsx:175-217 | nothing happens when time is up; a wrong answer only resets the streak; a right answer adds one to the count and the streak, removes exactly the entry at `current`, and either returns to entry 0 or ends the session, stops the clock and raises the completion alert |
| `Unscramble.VerificarRemoveUma` | front/MobilePlay/jogoMobile/saibamais/components/JogoPalavras.tsx:190 | a right answer takes exactly one occurrence of the answered entry out of the queue |
| `Unscramble.Gravado` | front/MobilePlay/jogoMobile/saibamais/components/JogoPalavras.tsx:180-185 | the solved list is written, as the read list plus the word, exactly when the answer is right and both storage calls succeed |
| `Unscramble.Tick` | front/MobilePlay/jogoMobile/saibamais/components/JogoPalavras.tsx:122-136 | a running clock with time left loses one second; at zero it stops and raises the time-out alert; a stopped clock does nothing |
| `Unscramble.CountdownFiresOnce` | front/MobilePlay/jogoMobile/saibamais/components/JogoPalavras.tsx:122-136 | a clock with `k` seconds left is stopped at 0 after any `n > k` ticks, having raised the alert exactly once |
| `Unscramble.StoppedStaysStopped` | front/MobilePlay/jogoMobile/saibamais/components/JogoPalavras.tsx:123-126 | once stopped, ticks change nothing |
| `Unscramble.JogoPalavras.constructor` | front/MobilePlay/jogoMobile/saibamais/components/JogoPalavras.tsx:40-55 | the fields start at the `useState` initial values |
| `Unscramble.JogoPalavras.PrepararLetras` | front/MobilePlay/jogoMobile/saibamais/components/JogoPalavras.tsx:103-109 | the pool effect clears the buffer and sets the pool for the entry on screen, changing nothing else; the invariant holds after it |
| `Unscramble.JogoPalavras.CarregarProgresso` | front/MobilePlay/jogoMobile/saibamais/components/JogoPalavras.tsx:64-78 | the load effect performs `Carregar` and then the pool effect its new queue triggers |
| `Unscramble.JogoPalavras.HandleLetra` | front/MobilePlay/jogoMobile/saibamais/components/JogoPalavras.tsx:149-161 | the new state is `Tocar` of the old one |
| `Unscramble.JogoPalavras.HandleApagar` | front/MobilePlay/jogoMobile/saibamais/components/JogoPalavras.tsx:163-173 | the new state is `Apagar` of the old one |
| `Unscramble.JogoPalavras.RevelarLetra` | front/MobilePlay/jogoMobile/saibamais/components/JogoPalavras.tsx:219-237 | the new state is `Revelar` of the old one |
| `Unscramble.JogoPalavras.PularPalavra` | front/MobilePlay/jogoMobile/saibamais/components/JogoPalavras.tsx:239-249 | a skip that acts is followed by the pool effect; one that does not act changes nothing |
| `Unscramble.JogoPalavras.HandleVerificar` | front/MobilePlay/jogoMobile/saibamais/components/JogoPalavras.tsx:175-217 | it writes exactly `Gravado`; a right answer is `Verificar` followed by the pool effect; anything else is `Verificar` alone; the invariant is kept |
| `Unscramble.JogoPalavras.RegistrarAcerto` | front/MobilePlay/jogoMobile/saibamais/components/JogoPalavras.tsx:187-204 | the state updates of a right answer are `Verificar` of the old state |
| `Unscramble.JogoPalavras.Temporizador` | front/MobilePlay/jogoMobile/saibamais/components/JogoPalavras.tsx:122-136 | the new state is `Tick` of the old one |
| `Puzzle.Blank` | python/tabuleiro/app.py:8-12 | the blank found is a cell of the board (its full characterisation is `BlankSpec`) |
| `Puzzle.BlankSpec` | python/tabuleiro/app.py:8-12 | the blank is a cell holding 0 with no 0 before it in row-major order, and none is found exactly when no cell holds 0 |
| `Puzzle.BlankIffZeroTile` | python/tabuleiro/app.py:8-12 | a board has a blank exactly when 0 is among its tiles |
| `Puzzle.EncontrarVazio` | python/tabuleiro/app.py:8-12 | the nested scan returns `Blank`: the first 0 in row-major order, or `None` |
| `Puzzle.GerarFilhos` | python/tabuleiro/app.py:15-27 | the loop over the four moves returns the children in the order up, down, left, right, skipping out-of-bounds moves |
| `Puzzle.FilhoEhAdjacente` | python/tabuleiro/app.py:15-27 | every child is one blank move from the parent |
| `Puzzle.AdjacenteEhFilho` | python/tabuleiro/app.py:15-27 | every board one blank move away is a child |
| `Puzzle.FilhosSaoAdjacentes` | python/tabuleiro/app.py:15-27 | a board is a child exactly when it is one move away |
| `Puzzle.QuantidadeDeFilhos` | python/tabuleiro/app.py:20-22 | 2 children with the blank in a corner, 3 on an edge, 4 in the centre |
| `Puzzle.Swap` | python/tabuleiro/app.py:23-24 | the copy has the two cells exchanged and every other cell unchanged, and is still 3×3 |
| `Puzzle.MesmasPecas` | python/tabuleiro/app.py:23-24 | a move keeps the board 3×3 with the same tiles, and so with a blank |
| `Puzzle.FilhosPermutam` | python/tabuleiro/app.py:23-25 | every child's tiles are a permutation of the parent's |
| `Puzzle.Get` | python/tabuleiro/app.py:34 | `pais.get` gives the recorded entry of a key and `None` for a board that is not a key |
| `Puzzle.Reverse` | python/tabuleiro/app.py:35 | `[::-1]` keeps the length and puts element `i` at position `n - 1 - i` |
| `Puzzle.ReconstruirCaminho` | python/tabuleiro/app.py:30-35 | for an acyclic parent map the walk terminates; the path ends with `atual`, starts with a board without a parent, and each board is the recorded parent of the next |
| `Puzzle.CaminhoReconstruido` | python/tabuleiro/app.py:30-35 | over the search tree, such a path is a chain of moves from the start board as long as its end's level |
| `Puzzle.ArvoreAciclica` | python/tabuleiro/app.py:41-53 | the parent map the search builds is acyclic, so reconstruction terminates |
| `Puzzle.Inicio` | python/tabuleiro/app.py:39-41 | the initial queue, visited set and parent map satisfy the search invariant |
| `Puzzle.Desenfileira` | python/tabuleiro/app.py:44 | the popped head is unvisited and in the parent map, and the rest of the queue satisfies the inner invariant |
| `Puzzle.Encontrado` | python/tabuleiro/app.py:46-47 | when the head is the goal, the reconstructed path is a move chain from the start to it, no longer than any other, and `[inicial]` when start and goal coincide |
| `Puzzle.ConsiderarFilho` | python/tabuleiro/app.py:50-53 | a child not in the parent map gets `atual` as parent and joins the queue; a child already there changes nothing; the invariant is kept |
| `Puzzle.Enfileira` | python/tabuleiro/app.py:51-53 | recording a new child keeps the tree, queue, closure and minimality invariants |
| `Puzzle.EnfileirarFilhos` | python/tabuleiro/app.py:49-53 | the loop never overwrites a parent, gives every new entry parent `atual`, grows the queue only at its tail, and leaves every board one move from `atual` in the parent map |
| `Puzzle.Visita` | python/tabuleiro/app.py:55 | marking the head visited restores the outer invariant |
| `Puzzle.MinimoAvanca` | python/tabuleiro/app.py:43-55 | after a visit, every move chain from the start with at most one board more than the new head's level ends in the parent map, at a level no greater than its number of moves (the breadth-first ordering) |
| `Puzzle.Expandir` | python/tabuleiro/app.py:49-55 | expanding a head that is not the goal restores the invariant with one more board of the finite board space visited |
| `Puzzle.NoEspaco` | python/tabuleiro/app.py:41-55 | every board with the start's tiles lies in a finite set fixed by the start board, so the loop terminates |
| `Puzzle.VisitadosEmPais` | python/tabuleiro/app.py:41-55 | the visited set is always inside the parent map's keys |
| `Puzzle.FechadoBloqueia` | python/tabuleiro/app.py:43-57 | a set closed under moves that holds the start but not the goal shows the goal unreachable |
| `Puzzle.ArvoreAlcancavel` | python/tabuleiro/app.py:41-53 | every board recorded in the parent map is reachable from the start by moves |
| `Puzzle.Esgotado` | python/tabuleiro/app.py:43-57 | an exhausted queue means the goal is unreachable, and the boards ever queued are exactly those reachable from the start |
| `Puzzle.Bfs` | python/tabuleiro/app.py:38-57 | a returned path is a move chain from `inicial` to `final` of minimum length; `None` exactly when `final` is unreachable; `bfs(s, s) == [s]`. The ghost record of queued boards holds each board once, only boards reachable from the start, and every reachable board when `None` is returned; the loop invariant `Fila` ties that record to the queue and the parent map |

## Left out

- Rendering, styles, `Animated`, `LinearGradient`, `Ionicons` and `Vibration` in both screens are presentation only. `Alert` is kept only as the count `finsAgendados` of alerts whose button calls `onFinishSprint`.
- `AsyncStorage` and JSON are I/O. The read list is a parameter (`None` when the read or the parse fails) and the write is a success flag.
- `Math.random` is foreign. The random index of `shuffle` is a nondeterministic choice, so `Embaralhadas` proves what every run of the shuffle guarantees.
- `setTimeout` scheduling and React's effect ordering are runtime timing. Each handler or effect is one atomic step, and each timer firing is one call of `Temporizador`.
- The effect that runs on mount with the bundled entries, before loading ends, is not modelled. No handler is reachable while the loading screen is shown. When the loaded queue is not empty, its pool is replaced by the one `CarregarProgresso` builds. When the loaded queue is empty, the pool effect skips (JogoPalavras.tsx:104) and the mount-time pool stays, but then only the completion screen renders (JogoPalavras.tsx:264-276), so no pool is shown or used.
- `Unscramble.JogoPalavras.PularPalavra` requires that loading has ended. The skip button is only rendered on the game screen, after loading.
- The handlers `HandleLetra`, `RevelarLetra` and `HandleVerificar` require an entry on screen, and `HandleLetra` requires that `letra` is the pool letter at `index`. These hold wherever the screen renders the buttons (JogoPalavras.tsx:264-278, 408-412).
- `progresso` and `tempoPercentual` are floating-point display values and are not modelled.
- CalcularProgresso: its own contract states only that the denominator is positive. Its exact value for every count resolved through `GetNivel` is stated in `ProgressBounds`, and it returns the exact fraction where JavaScript divides in floating point.
- `toLowerCase` is modelled as ASCII lower-casing, with no Unicode case mapping.
- The bundled `frases.json` is a parameter of the class (`frasesData`).
- A negative `sprintSize` is excluded by its type (`nat`). The screen always passes 10.
- `to_tuple` only turns lists into tuples. Dafny sequences are values and serve as map and set keys directly, so it is the identity here.
- `Puzzle.Bfs` requires a 3×3 start board, the only shape `ler_estado` reads in (three lines of three numbers, app.py:61-65). Boards with more rows or longer rows are not modelled, although the source's scans of the first three rows and columns would run on some of them. It also requires a start board with a blank unless the start is already the goal, because otherwise `gerar_filhos` fails unpacking the `None` returned by `encontrar_vazio` (app.py:16).
- `ler_estado` and the `__main__` block of app.py are console I/O.
- front/LeitorMusica/Beatify/app/index.js is a single navigation link and is not part of this model.
