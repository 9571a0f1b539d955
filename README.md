# Genealogy tree (ArbolBinario / Avanze_ABR) in Dafny

A model of the binary genealogy tree of `ArbolBinario.cpp` (the final version)
and `Avanze_ABR.cpp` (an earlier draft), with proofs of its invariants and of
what each operation does. Each person (`Nodo`) has an `id`, a `nombre`, an
`apellido`, a back-pointer `padre` and two child slots `izq` and `der`. The
operations are:

- `buscarPorID`, a depth-first search by id;
- `esAncestro`, the parent-chain test that vetoes cycles;
- `insertarPersona`, which puts a person into the first free slot of a parent;
- `anadirPersona`, which creates a person, rejects a duplicate id and adds the
  person as the root or under a parent;
- `eliminarPersona`, which deletes only leaves; deleting the root empties the tree;
- the `preorden`, `inorden` and `postorden` walks;
- the two ancestry reports.

## How the program is represented

- **Pointers become handles.** Every `Nodo*` is a handle (`Ref`) into an arena
  `nodos: map<Ref, Nodo>`. `NULL` is `None`.
  - `new Nodo()` takes a handle `nueva` that the caller passes in and that is
    not yet in the arena.
  - `delete` removes the handle from the arena.
  - A write through a pointer is a map update. An edit returns the new arena,
    and the new root when it changes the root.
- **The ghost shape.** The nodes reachable from the root (the members) come
  with a ghost shape `Forma`: the member set, the depth of each member, and a
  bound on the depths.
  - `Arena.Valido` is the invariant: members are allocated; each child slot
    holds a member one level deeper; the two slots never hold the same child;
    child slots and `padre` pointers agree in both directions; only the root has
    no `padre`.
  - Acyclicity follows from the depths, since every `padre` link goes one level up.
  - `Arena.IdsUnicos` states that the ids are distinct, which `anadirPersona` keeps.
  - `Arena.Nodo` is `struct Nodo`. It and the two predicates carry no contract
    of their own. `ArbolBinario.InvarianteDelArbol` states what `Arena.Valido`
    promises about the pointers, and `ArbolBinario.BuscarDesdeRaiz` states what
    `Arena.IdsUnicos` buys the search.
- **Files.**
  - `arena.dfy` (module `Arena`): the records, the shape and one lemma per kind
    of edit, showing that the edit keeps the invariant.
  - `arbol_binario.dfy` (module `ArbolBinario`): the final version.
  - `avanze_abr.dfy` (module `AvanzeAbr`): the parts of the draft that behave
    differently.
  - `ejemplos.dfy` (module `Ejemplos`): a worked four-person example.
- **Pure functions and imperative methods.**
  - The pure recursions `buscarPorID`, `preorden`, `inorden` and `postorden` are
    functions. The walks return the visited handles, not printed lines.
  - The loops and the edits are methods: `esAncestro`, `insertarPersona`,
    `anadirPersona`, `eliminarPersona` and both ancestry reports.
  - The detailed report keeps the `camino[100]` array and its two loops. Each
    report returns one record per printed level.
- **What the draft shares.** Its `Nodo`, `buscarPorID` (Avanze_ABR.cpp:16-24),
  `esAncestro` (Avanze_ABR.cpp:27-34), `preorden` and `inorden`
  (Avanze_ABR.cpp:74-89) are the same code as in the final version. They are
  modelled once, in `ArbolBinario`. Their rows below cite the final version's
  lines, and each of their contracts holds for the draft's copy as well.
- **How the draft differs.**
  - `insertarPersona` writes `nueva->padre` only once a slot is found, so every
    failure leaves the arena exactly as it was. The final version writes
    `nueva->padre` at ArbolBinario.cpp:52, before it looks at the slots.
  - The draft's report lists the ancestors from the padre up to the root. The
    final version's report lists the levels from the root down to the person.
- **Two points of the code's behaviour worth noting.**
  - `insertarPersona` does not check for a duplicate id; only `anadirPersona`
    checks.
  - The final `insertarPersona` sets `padre` before checking the slots, not on
    success only. When the parent is full, that write stays on `nueva`, and
    `anadirPersona` then deletes `nueva`. `ArbolBinario.AnadirPersona` proves
    that a failed call leaves the arena as it was.

## Model

| member | source | states |
|---|---|---|
| Arena.FueraDelArbol | ArbolBinario.cpp:147-150 | creating, changing or deleting a record outside the tree (the pending `nueva`) keeps the tree invariant and the distinct ids |
| Arena.EngancharForma | ArbolBinario.cpp:52-58 | hanging a childless outside record into a slot of member p keeps every slot pointing one level deeper, with the new member one level below p |
| Arena.EngancharHijos | ArbolBinario.cpp:52-58 | after hanging, the two slots of every member differ and each child in a slot has its padre pointing back |
| Arena.EngancharPadres | ArbolBinario.cpp:52-58 | after hanging, every member's padre is a member one level up that holds it in a slot, and only the root has none |
| Arena.Enganchar | ArbolBinario.cpp:52-58 | writing `nueva->padre = p` and a free slot of p gives a valid tree with exactly one more member; ids stay distinct when nueva's id is new |
| Arena.EngancharIds | ArbolBinario.cpp:52-58 | hanging a record whose id no member carries keeps all ids distinct |
| Arena.DesengancharForma | ArbolBinario.cpp:207-213 | clearing the parent's slot and deleting a childless member keeps the downward shape of the rest |
| Arena.DesengancharHijos | ArbolBinario.cpp:207-213 | after unhooking, slots and back-pointers of the remaining members still agree |
| Arena.DesengancharPadres | ArbolBinario.cpp:207-213 | after unhooking, every remaining padre is a member that holds its child |
| Arena.Desenganchar | ArbolBinario.cpp:207-213 | unhooking and deleting a childless non-root member gives a valid tree without it, with distinct ids kept |
| Arena.NuevaRaiz | ArbolBinario.cpp:168-169 | in an empty tree a parentless, childless record becomes a valid one-member tree rooted at it |
| Arena.SinRaiz | ArbolBinario.cpp:199-203 | deleting the only member leaves a valid empty tree |
| ArbolBinario.PrimeraPosicion | ArbolBinario.cpp:17-23 | reference for a first match: the least position whose node carries the id, or none when no position does |
| ArbolBinario.PrimeraPosicionConcat | ArbolBinario.cpp:20-22 | the first match in a + b is the first match in a, else the first match in b shifted by the length of a |
| ArbolBinario.PrimeroEnTres | ArbolBinario.cpp:19-22 | in a walk self + izq walk + der walk the first match is self, else the first in the izq walk, else the first in the der walk |
| ArbolBinario.BuscarPorID | ArbolBinario.cpp:17-23 | a result is a member carrying the key; NULL (also for a NULL start) means no node of the subtree carries the key |
| ArbolBinario.BuscarEsPrimeroEnPreorden | ArbolBinario.cpp:17-23 | the search returns exactly the first node of the preorder walk (self, izq, der) carrying the key, so with repeated ids the first in that order wins |
| ArbolBinario.BuscarDesdeRaiz | ArbolBinario.cpp:17-23 | with distinct ids, searching from the root yields member x iff x carries the key, and NULL iff no member does |
| ArbolBinario.BuscarFuera | ArbolBinario.cpp:17-23 | the search reads only tree records: changing records outside the tree does not change its result |
| ArbolBinario.Camino | ArbolBinario.cpp:26-33 | the padre chain from a node: starts at the node, each entry is the padre of the one before, depths drop by one, and it ends at the parentless root |
| ArbolBinario.EsAncestro | ArbolBinario.cpp:26-33 | the loop terminates and returns true exactly when the candidate is on the padre chain from the node, the node included |
| ArbolBinario.HijoEnCamino | ArbolBinario.cpp:26-33 | if a child of a lies on the chain of x, then a lies on it too, strictly above x |
| ArbolBinario.AncestroTieneHijoEnCamino | ArbolBinario.cpp:26-33 | a proper ancestor of x has exactly one of its two children on the chain of x |
| ArbolBinario.SubarbolSiiAncestro | ArbolBinario.cpp:26-33 | x is in the subtree walked from a exactly when a is on the padre chain of x |
| ArbolBinario.RaizSinHijos | ArbolBinario.cpp:198-204 | a childless root is the only member, so deleting it empties the tree |
| ArbolBinario.InvarianteDelArbol | ArbolBinario.cpp:7-14 | in a valid tree only the root lacks a padre; a record sits in a slot of a member exactly when it is a member whose padre is that member; the two slots never hold the same child; a padre chain never repeats a node, so no node is its own ancestor |
| ArbolBinario.Preorden | ArbolBinario.cpp:66-72 | the walk lists only members of the tree |
| ArbolBinario.Inorden | ArbolBinario.cpp:75-81 | the inorder walk (izq, self, der) lists only members of the tree; with RecorridoCompleto, every member exactly once; the draft's identical inorden is Avanze_ABR.cpp:83-89 |
| ArbolBinario.Postorden | ArbolBinario.cpp:84-90 | the postorder walk (izq, der, self) lists only members of the tree; with RecorridoCompleto, every member exactly once |
| ArbolBinario.PreordenUnaVez | ArbolBinario.cpp:66-72 | the preorder walk from n lists member x exactly once when x is in the subtree of n, and not at all otherwise |
| ArbolBinario.HijosEnCamino | ArbolBinario.cpp:66-72 | counting a node when it is x plus its children on the chain of x gives 1 exactly when the node is on that chain |
| ArbolBinario.PreordenDesdeRaiz | ArbolBinario.cpp:66-72 | the preorder walk from the root lists each member exactly once and nothing else |
| ArbolBinario.RecorridosPermutacion | ArbolBinario.cpp:66-90 | the preorder, inorder and postorder walks from any node are permutations of one another |
| ArbolBinario.RecorridoCompleto | ArbolBinario.cpp:66-90 | each of the three walks from the root visits every member exactly once and nothing else |
| ArbolBinario.InsertarPersona | ArbolBinario.cpp:36-63 | parent not found, nueva already parented, or nueva on the parent's chain: fails with that error and changes nothing; otherwise padre set, then izq if free else der; a full parent fails with only nueva's padre written; the invariant is kept and ids stay distinct when nueva's id is new |
| ArbolBinario.Colocar | ArbolBinario.cpp:52-62 | sets nueva's padre, then fills izq if free, else der, growing the tree by nueva one level below p; with both slots taken fails with PadreLleno and only the padre write |
| ArbolBinario.AnadirPersona | ArbolBinario.cpp:146-182 | a duplicate id fails; an empty tree gets the new record as root; otherwise the new record is inserted under padreID or the call fails (parent not found, parent full), and every failure leaves arena, root and tree unchanged; the invariant and unique ids are kept, and a success makes the new id found at the new record |
| ArbolBinario.EliminarPersona | ArbolBinario.cpp:185-215 | absent id or a node with a child: fails and changes nothing; a childless root: the tree becomes empty; otherwise exactly the parent slot holding it is cleared and the record deleted; the invariant and unique ids are kept and, with unique ids, the id is no longer found |
| ArbolBinario.CaminoEsCadena | ArbolBinario.cpp:103-107 | the chain stored by the first loop links each entry to its padre, which holds it in one of two distinct slots, and ends at a parentless node |
| ArbolBinario.Niveles | ArbolBinario.cpp:110-141 | reference report: one level per chain entry, root first |
| ArbolBinario.NivelDeMuestra | ArbolBinario.cpp:112-136 | level j + 1 shows the node at distance j from the root; the root level is plain with no sibling; a lower level is tagged buscado at the person and padre above, and its sibling is shown iff the padre has two children, is the other child, and is tagged hermano only at the person |
| ArbolBinario.AscendenciaDeRaizAPersona | ArbolBinario.cpp:110-141 | the report of a member has depth + 1 levels, level 1 is the root, and the last level is the person, tagged buscado unless it is the root |
| ArbolBinario.NivelImpreso | ArbolBinario.cpp:114-140 | one pass of the printing loop shows level nivel - i for the node camino[i]; a node without padre is shown as the root with no sibling; a sibling shown is the other slot of the padre, found by the two slot tests; it is tagged hermano exactly at i == 0 |
| ArbolBinario.NivelImpresoEsNivelDe | ArbolBinario.cpp:114-140 | one pass of the printing loop for camino[i] shows reference level nivel - i, so the "(Raiz)" tag of line 125 is never printed |
| ArbolBinario.GuardarCamino | ArbolBinario.cpp:101-107 | camino[0..nivel) is the padre chain of the person, person first, when it fits in the 100 slots |
| ArbolBinario.ImprimirCamino | ArbolBinario.cpp:110-141 | the downward loop over camino shows exactly the reference report |
| ArbolBinario.MostrarAscendenciaDetallada | ArbolBinario.cpp:93-143 | a NULL person is reported not found; otherwise the result is the reference report of the person's chain |
| AvanzeAbr.InsertarPersona | Avanze_ABR.cpp:37-71 | the same three checks fail with nothing changed; otherwise izq if free else der is filled and only then padre set; a full parent fails with the arena unchanged; the invariant is kept and ids stay distinct when nueva's id is new |
| AvanzeAbr.Colocar | Avanze_ABR.cpp:56-70 | fills izq if free, else der, then sets nueva's padre, growing the tree by nueva; with both slots taken fails with nothing written |
| AvanzeAbr.AnadirPersona | Avanze_ABR.cpp:129-167 | duplicate id fails; an empty tree gets the new root; otherwise the draft's insertion, with every failure leaving everything unchanged; invariant and unique ids kept |
| AvanzeAbr.HermanoDe | Avanze_ABR.cpp:101-105 | the sibling shown is a child of the padre other than the current node, the izq one when it qualifies, and none exactly when the padre has no other child |
| AvanzeAbr.HermanoDeEnCadena | Avanze_ABR.cpp:101-105 | along a padre chain the draft's sibling test picks the other child of the padre |
| AvanzeAbr.Ancestros | Avanze_ABR.cpp:92-109 | reference report of the draft: one line per proper ancestor, nearest first |
| AvanzeAbr.SubirPorPadres | Avanze_ABR.cpp:96-108 | the loop up the padre chain yields exactly the reference lines |
| AvanzeAbr.MostrarAscendencia | Avanze_ABR.cpp:92-109 | a NULL person gives no lines; otherwise the reference lines of its chain |
| AvanzeAbr.AncestrosHastaLaRaiz | Avanze_ABR.cpp:92-109 | one line per proper ancestor, numbered 1 up: the first shows the padre, each next the padre of the one before, the last the root; a root person gets no line |
| AvanzeAbr.InformesCoinciden | Avanze_ABR.cpp:92-109 | the draft's line k + 1 names the ancestor that the final report shows k + 1 levels above the person, and its sibling is the one the final report shows on the level just below that ancestor |
| Ejemplos.EjemploValido | ArbolBinario.cpp:7-14 | a root R with children A and B, and C under A, is a valid tree |
| Ejemplos.EjemploPreorden | ArbolBinario.cpp:66-72 | its preorder walk is R, A, C, B |
| Ejemplos.EjemploInorden | ArbolBinario.cpp:75-81 | its inorder walk is C, A, R, B |
| Ejemplos.EjemploPostorden | ArbolBinario.cpp:84-90 | its postorder walk is C, A, B, R |
| Ejemplos.EjemploCamino | ArbolBinario.cpp:26-33 | the padre chain of C is C, A, R |
| Ejemplos.EjemploAscendencia | ArbolBinario.cpp:93-143 | the detailed report of C: R as root, A tagged padre beside B untagged, C tagged buscado with no sibling |
| Ejemplos.EjemploAscendenciaConHermano | ArbolBinario.cpp:129-136 | the detailed report of A: R as root, then A tagged buscado beside B tagged hermano |
| Ejemplos.EjemploAscendenciaBorrador | Avanze_ABR.cpp:92-109 | the draft's report of C: A with no sibling, then R beside B |

## Left out

- Console I/O is not modelled: prompts, `getline`, the menus (`menu`,
  `submenuMetodosBusqueda`, `mostrarMenu`, `main`), `system` calls, `setlocale`
  and the printed text. Errors are values of `ArbolBinario.Error`. Walks and
  reports return handles and level records, not formatted names.
- Memory: `new` is modelled by a handle `nueva` that the caller supplies and that
  is not in the arena. `delete` removes the handle. Freeing memory has nothing to
  verify.
- Pointer writes in place are modelled as a returned arena value. Aliasing among
  the program's pointers is captured only through the handles.
- The two search-and-report callers are not modelled separately: case 4 of the
  draft's menu (Avanze_ABR.cpp:179-191) and `buscarPersonaYAscendencia` of the
  final version (ArbolBinario.cpp:269-276). Each reads an id with `getline`,
  searches with `buscarPorID` and passes the result to the report, whose NULL
  case the report models; the draft's not-found branch only prints.
- ArbolBinario.GuardarCamino and ArbolBinario.MostrarAscendenciaDetallada
  require the person's depth to be below 100. A longer chain overflows
  `camino[100]`, which is undefined behaviour in the program.
- ArbolBinario.InsertarPersona requires a record outside the tree to be
  childless, so only a single record is ever hung, as the callers do. The same
  applies to AvanzeAbr.InsertarPersona. A member passed as `nueva` is allowed and
  is rejected as the code rejects it.
- Every operation requires `Arena.Valido` of its input tree. The program assumes
  this of its tree; the proofs show that every edit keeps it.
- ArbolBinario.InsertarPersona, like the code, does not reject a duplicate id.
  The distinct ids are kept only through `anadirPersona`'s check.
- The `int nivel` counters of both reports are unbounded naturals here. They are
  bounded by the chain length, far below 32-bit overflow.
