/**
 * The genealogy tree of ArbolBinario.cpp (the complete version): the search,
 * the ancestor test, the three walks, the detailed ascendancy report and the
 * edits anadirPersona, insertarPersona and eliminarPersona.
 *
 * The program's free functions take node pointers and write through them;
 * here each takes the arena `nodos` (see arena.dfy) and the root as values,
 * together with the ghost shape `f` of the tree, and an edit returns the
 * arena, the root and the shape as they are afterwards.
 */
module ArbolBinario {

  import opened Arena

  /** The failures that the program reports on the console. */
  datatype Error =
    | PadreNoEncontrado    // "Padre no encontrado"
    | YaTienePadre         // "Esta persona ya tiene un padre asignado"
    | CreariaCiclo         // "No se puede insertar (crear a un ciclo)"
    | PadreLleno           // "El padre ya tiene dos hijos"
    | IdDuplicado          // "Ya existe una persona con ese ID"
    | PersonaNoEncontrada  // "Persona no encontrada"
    | TieneHijos           // "No se puede eliminar. Esta persona tiene hijos"

  /** What a `bool`-returning (or `void`) operation reports. */
  datatype Outcome = Pass | Fail(error: Error)

  /** What an operation that also yields a value reports. */
  datatype Result<T> = Success(value: T) | Failure(error: Error)

  /** The tag printed after the person of a level of the detailed report. */
  datatype Rol = Raiz | Padre | Buscado

  /**
   * One level of mostrarAscendenciaDetallada: its number, the person at that
   * level with its tag, the sibling printed beside it (if any), and whether
   * that sibling is tagged "(hermano)".
   */
  datatype Nivel = Nivel(numero: nat, persona: Ref, rol: Rol,
                         hermano: Option<Ref>, hermanoMarcado: bool)

  // -----------------------------------------------------------------------
  // Positions in the tree
  // -----------------------------------------------------------------------

  /** A pointer that is NULL or points into the tree. */
  ghost predicate EnArbol(f: Forma, n: Option<Ref>)
  {
    n.None? || n.value in f.miembros
  }

  /** The measure that decreases from a node to its children. */
  ghost function Altura(nodos: map<Ref, Nodo>, f: Forma, n: Option<Ref>): nat
    requires Bien(nodos, f) && EnArbol(f, n)
  {
    if n.None? then 0 else f.cota - f.prof[n.value]
  }

  // -----------------------------------------------------------------------
  // Reference definitions
  // -----------------------------------------------------------------------

  /**
   * Reference definition of a first match: the least position of s whose
   * node carries the id, or None when no position does.
   */
  function PrimeraPosicion(nodos: map<Ref, Nodo>, s: seq<Ref>, id: string): (k: Option<nat>)
    requires forall i :: 0 <= i < |s| ==> s[i] in nodos
    ensures k.Some? ==> k.value < |s| && nodos[s[k.value]].id == id
    ensures k.Some? ==> forall j :: 0 <= j < k.value ==> nodos[s[j]].id != id
    ensures k.None? ==> forall j :: 0 <= j < |s| ==> nodos[s[j]].id != id
  {
    if s == [] then None
    else if nodos[s[0]].id == id then Some(0)
    else
      match PrimeraPosicion(nodos, s[1..], id)
      case None => None
      case Some(k) => Some(k + 1)
  }

  /** The first match in a + b is the first match in a, else the first in b. */
  lemma {:induction false} PrimeraPosicionConcat(nodos: map<Ref, Nodo>, a: seq<Ref>, b: seq<Ref>, id: string)
    requires forall i :: 0 <= i < |a| ==> a[i] in nodos
    requires forall i :: 0 <= i < |b| ==> b[i] in nodos
    ensures PrimeraPosicion(nodos, a + b, id) ==
              match PrimeraPosicion(nodos, a, id)
              case Some(k) => Some(k)
              case None =>
                match PrimeraPosicion(nodos, b, id)
                case None => None
                case Some(k) => Some(|a| + k)
  {
    if a == [] {
      assert a + b == b;
    } else {
      assert (a + b)[0] == a[0];
      assert (a + b)[1..] == a[1..] + b;
      PrimeraPosicionConcat(nodos, a[1..], b, id);
    }
  }

  /** The first node of s that carries the id, or None when no node of s does. */
  function PrimeroEn(nodos: map<Ref, Nodo>, s: seq<Ref>, id: string): Option<Ref>
    requires forall i :: 0 <= i < |s| ==> s[i] in nodos
  {
    match PrimeraPosicion(nodos, s, id)
    case None => None
    case Some(k) => Some(s[k])
  }

  /**
   * The first match in a walk [a] + si + sd is a when it carries the id,
   * else the first match in si, else the first match in sd.
   */
  lemma PrimeroEnTres(nodos: map<Ref, Nodo>, a: Ref, si: seq<Ref>, sd: seq<Ref>, id: string)
    requires a in nodos
    requires forall i :: 0 <= i < |si| ==> si[i] in nodos
    requires forall i :: 0 <= i < |sd| ==> sd[i] in nodos
    ensures PrimeroEn(nodos, [a] + si + sd, id) ==
              if nodos[a].id == id then Some(a)
              else if PrimeroEn(nodos, si, id).Some? then PrimeroEn(nodos, si, id)
              else PrimeroEn(nodos, sd, id)
  {
    var s := [a] + si + sd;
    PrimeraPosicionConcat(nodos, [a], si, id);
    PrimeraPosicionConcat(nodos, [a] + si, sd, id);
    if nodos[a].id != id {
      var pi := PrimeraPosicion(nodos, si, id);
      if pi.Some? {
        assert s[1 + pi.value] == si[pi.value];
      } else {
        var pd := PrimeraPosicion(nodos, sd, id);
        if pd.Some? {
          assert s[1 + |si| + pd.value] == sd[pd.value];
        }
      }
    }
  }

  /** Reordering the three parts of a walk keeps its multiset. */
  lemma TresPartes(a: Ref, pi: seq<Ref>, ii: seq<Ref>, oi: seq<Ref>, pd: seq<Ref>, id: seq<Ref>, od: seq<Ref>)
    requires multiset(pi) == multiset(ii) == multiset(oi)
    requires multiset(pd) == multiset(id) == multiset(od)
    ensures multiset([a] + pi + pd) == multiset(ii + [a] + id)
    ensures multiset([a] + pi + pd) == multiset(oi + od + [a])
  {
  }

  // -----------------------------------------------------------------------
  // The parent chain
  // -----------------------------------------------------------------------

  /**
   * The chain n, n->padre, n->padre->padre, ... up to the root: each element
   * is the padre of the one before it, the last one has no padre and is the
   * root, and depths go down by one per step, so no node occurs twice.
   */
  ghost function Camino(nodos: map<Ref, Nodo>, raiz: Option<Ref>, f: Forma, n: Option<Ref>): (c: seq<Ref>)
    requires Valido(nodos, raiz, f) && EnArbol(f, n)
    ensures n.None? ==> c == []
    ensures n.Some? ==> |c| == f.prof[n.value] + 1 && c[0] == n.value
    ensures forall i :: 0 <= i < |c| ==> c[i] in f.miembros && f.prof[c[i]] == |c| - 1 - i
    ensures forall i :: 0 <= i < |c| - 1 ==> nodos[c[i]].padre == Some(c[i + 1])
    ensures c != [] ==> nodos[c[|c| - 1]].padre.None? && raiz == Some(c[|c| - 1])
    decreases if n.None? then 0 else f.prof[n.value] + 1
  {
    match n
    case None => []
    case Some(r) => [r] + Camino(nodos, raiz, f, nodos[r].padre)
  }

  /**
   * If a child h of a lies on the chain of x, so does a, and x is not a
   * (x lies strictly below a).
   */
  lemma {:induction false} HijoEnCamino(nodos: map<Ref, Nodo>, raiz: Option<Ref>, f: Forma, a: Ref, h: Ref, x: Ref)
    requires Valido(nodos, raiz, f) && a in f.miembros && x in f.miembros
    requires nodos[a].izq == Some(h) || nodos[a].der == Some(h)
    requires h in Camino(nodos, raiz, f, Some(x))
    ensures a in Camino(nodos, raiz, f, Some(x)) && x != a
  {
    var c := Camino(nodos, raiz, f, Some(x));
    var j :| 0 <= j < |c| && c[j] == h;
    assert nodos[h].padre == Some(a);
    assert j < |c| - 1;
    assert c[j + 1] == a;
    assert f.prof[x] == |c| - 1 && f.prof[h] == f.prof[a] + 1;
  }

  /**
   * If a lies strictly above x on the chain of x, then exactly one child
   * of a lies on that chain too.
   */
  lemma {:induction false} AncestroTieneHijoEnCamino(nodos: map<Ref, Nodo>, raiz: Option<Ref>, f: Forma, a: Ref, x: Ref)
    requires Valido(nodos, raiz, f) && a in f.miembros && x in f.miembros
    requires a in Camino(nodos, raiz, f, Some(x)) && x != a
    ensures (nodos[a].izq.Some? && nodos[a].izq.value in Camino(nodos, raiz, f, Some(x)))
         != (nodos[a].der.Some? && nodos[a].der.value in Camino(nodos, raiz, f, Some(x)))
  {
    var c := Camino(nodos, raiz, f, Some(x));
    var i :| 0 <= i < |c| && c[i] == a;
    assert i > 0;
    var h := c[i - 1];
    assert nodos[h].padre == Some(a);
    assert nodos[a].izq == Some(h) || nodos[a].der == Some(h);
  }

  /** A root without children is the only member of the tree. */
  lemma {:induction false} RaizSinHijos(nodos: map<Ref, Nodo>, raiz: Option<Ref>, f: Forma)
    requires Valido(nodos, raiz, f) && raiz.Some?
    requires nodos[raiz.value].izq.None? && nodos[raiz.value].der.None?
    ensures f.miembros == {raiz.value}
  {
    forall x | x in f.miembros
      ensures x == raiz.value
    {
      if x != raiz.value {
        var c := Camino(nodos, raiz, f, Some(x));
        assert c[|c| - 1] in c;
        AncestroTieneHijoEnCamino(nodos, raiz, f, raiz.value, x);
      }
    }
  }

  /**
   * What the tree invariant promises about struct Nodo's pointers: the root
   * is the only member without a padre; a record sits in a slot of a member
   * exactly when it is a member whose padre is that member; the two slots of
   * a member never hold the same child; and following padre from any member
   * never meets the same node twice, so no node is its own ancestor.
   */
  lemma InvarianteDelArbol(nodos: map<Ref, Nodo>, raiz: Option<Ref>, f: Forma)
    requires Valido(nodos, raiz, f)
    ensures forall r :: r in f.miembros ==> (nodos[r].padre.None? <==> raiz == Some(r))
    ensures forall r, h :: r in f.miembros && h in nodos ==>
              ((nodos[r].izq == Some(h) || nodos[r].der == Some(h)) <==> h in f.miembros && nodos[h].padre == Some(r))
    ensures forall r :: r in f.miembros && nodos[r].izq.Some? ==> nodos[r].izq != nodos[r].der
    ensures forall x :: x in f.miembros ==>
              var c := Camino(nodos, raiz, f, Some(x));
              forall i, j :: 0 <= i < j < |c| ==> c[i] != c[j]
  {
    forall r, h | r in f.miembros && h in nodos && h in f.miembros && nodos[h].padre == Some(r)
      ensures nodos[r].izq == Some(h) || nodos[r].der == Some(h)
    {
    }
    forall x | x in f.miembros
      ensures var c := Camino(nodos, raiz, f, Some(x));
              forall i, j :: 0 <= i < j < |c| ==> c[i] != c[j]
    {
      var c := Camino(nodos, raiz, f, Some(x));
      forall i, j | 0 <= i < j < |c|
        ensures c[i] != c[j]
      {
        assert f.prof[c[i]] != f.prof[c[j]];
      }
    }
  }

  // -----------------------------------------------------------------------
  // Walks and search
  // -----------------------------------------------------------------------

  /** preorden: self, then the izq subtree, then the der subtree. */
  function Preorden(nodos: map<Ref, Nodo>, ghost f: Forma, n: Option<Ref>): (s: seq<Ref>)
    requires Bien(nodos, f) && EnArbol(f, n)
    ensures forall i :: 0 <= i < |s| ==> s[i] in f.miembros
    decreases Altura(nodos, f, n)
  {
    match n
    case None => []
    case Some(r) => [r] + Preorden(nodos, f, nodos[r].izq) + Preorden(nodos, f, nodos[r].der)
  }

  /** inorden: the izq subtree, then self, then the der subtree. */
  function Inorden(nodos: map<Ref, Nodo>, ghost f: Forma, n: Option<Ref>): (s: seq<Ref>)
    requires Bien(nodos, f) && EnArbol(f, n)
    ensures forall i :: 0 <= i < |s| ==> s[i] in f.miembros
    decreases Altura(nodos, f, n)
  {
    match n
    case None => []
    case Some(r) => Inorden(nodos, f, nodos[r].izq) + [r] + Inorden(nodos, f, nodos[r].der)
  }

  /** postorden: the izq subtree, then the der subtree, then self. */
  function Postorden(nodos: map<Ref, Nodo>, ghost f: Forma, n: Option<Ref>): (s: seq<Ref>)
    requires Bien(nodos, f) && EnArbol(f, n)
    ensures forall i :: 0 <= i < |s| ==> s[i] in f.miembros
    decreases Altura(nodos, f, n)
  {
    match n
    case None => []
    case Some(r) => Postorden(nodos, f, nodos[r].izq) + Postorden(nodos, f, nodos[r].der) + [r]
  }

  /**
   * buscarPorID: depth-first, self before the izq subtree before the der
   * subtree. A result is a member that carries the key; no result means no
   * node of the subtree carries it.
   */
  function BuscarPorID(nodos: map<Ref, Nodo>, ghost f: Forma, n: Option<Ref>, id: string): (r: Option<Ref>)
    requires Bien(nodos, f) && EnArbol(f, n)
    ensures r.Some? ==> r.value in f.miembros && nodos[r.value].id == id
    ensures r.None? ==> forall x :: x in Preorden(nodos, f, n) ==> nodos[x].id != id
    decreases Altura(nodos, f, n)
  {
    match n
    case None => None
    case Some(nodo) =>
      if nodos[nodo].id == id then n
      else
        var encontrado := BuscarPorID(nodos, f, nodos[nodo].izq, id);
        if encontrado.Some? then encontrado
        else BuscarPorID(nodos, f, nodos[nodo].der, id)
  }

  // -----------------------------------------------------------------------
  // Properties of the walks and of the search
  // -----------------------------------------------------------------------

  /**
   * The preorder walk from n lists every member x exactly once if n lies on
   * the padre chain of x (x is in the subtree of n), and not at all
   * otherwise.
   */
  lemma {:induction false} PreordenUnaVez(nodos: map<Ref, Nodo>, raiz: Option<Ref>, f: Forma, n: Option<Ref>, x: Ref)
    requires Valido(nodos, raiz, f) && EnArbol(f, n) && x in f.miembros
    ensures multiset(Preorden(nodos, f, n))[x]
              == if n.Some? && n.value in Camino(nodos, raiz, f, Some(x)) then 1 else 0
    decreases Altura(nodos, f, n)
  {
    match n
    case None =>
    case Some(a) =>
      var izq, der := nodos[a].izq, nodos[a].der;
      PreordenUnaVez(nodos, raiz, f, izq, x);
      PreordenUnaVez(nodos, raiz, f, der, x);
      var si, sd := Preorden(nodos, f, izq), Preorden(nodos, f, der);
      assert Preorden(nodos, f, n) == [a] + si + sd;
      assert multiset(Preorden(nodos, f, n)) == multiset([a]) + multiset(si) + multiset(sd);
      HijosEnCamino(nodos, raiz, f, a, x);
  }

  /**
   * On the chain of x, a member a is x itself, or lies above x with exactly
   * one child of a on the chain, or is off the chain with no child of a on
   * it: counting a when it is x and its children on the chain gives 1 exactly
   * when a is on the chain.
   */
  lemma HijosEnCamino(nodos: map<Ref, Nodo>, raiz: Option<Ref>, f: Forma, a: Ref, x: Ref)
    requires Valido(nodos, raiz, f) && a in f.miembros && x in f.miembros
    ensures var c, q := Camino(nodos, raiz, f, Some(x)), nodos[a];
      (if a == x then 1 else 0)
      + (if q.izq.Some? && q.izq.value in c then 1 else 0)
      + (if q.der.Some? && q.der.value in c then 1 else 0)
      == if a in c then 1 else 0
  {
    var c, q := Camino(nodos, raiz, f, Some(x)), nodos[a];
    if a in c && x != a {
      AncestroTieneHijoEnCamino(nodos, raiz, f, a, x);
    } else {
      if q.izq.Some? && q.izq.value in c {
        HijoEnCamino(nodos, raiz, f, a, q.izq.value, x);
      }
      if q.der.Some? && q.der.value in c {
        HijoEnCamino(nodos, raiz, f, a, q.der.value, x);
      }
    }
  }

  /**
   * The three walks list the same nodes with the same multiplicities: each
   * one is a permutation of the others.
   */
  lemma {:induction false} RecorridosPermutacion(nodos: map<Ref, Nodo>, f: Forma, n: Option<Ref>)
    requires Bien(nodos, f) && EnArbol(f, n)
    ensures multiset(Preorden(nodos, f, n)) == multiset(Inorden(nodos, f, n))
    ensures multiset(Preorden(nodos, f, n)) == multiset(Postorden(nodos, f, n))
    decreases Altura(nodos, f, n)
  {
    match n
    case None =>
    case Some(a) =>
      var izq, der := nodos[a].izq, nodos[a].der;
      RecorridosPermutacion(nodos, f, izq);
      RecorridosPermutacion(nodos, f, der);
      var pi, ii, oi := Preorden(nodos, f, izq), Inorden(nodos, f, izq), Postorden(nodos, f, izq);
      var pd, id, od := Preorden(nodos, f, der), Inorden(nodos, f, der), Postorden(nodos, f, der);
      assert Preorden(nodos, f, n) == [a] + pi + pd;
      assert Inorden(nodos, f, n) == ii + [a] + id;
      assert Postorden(nodos, f, n) == oi + od + [a];
      TresPartes(a, pi, ii, oi, pd, id, od);
  }

  /** The preorder walk from the root lists every member exactly once and nothing else. */
  lemma PreordenDesdeRaiz(nodos: map<Ref, Nodo>, raiz: Option<Ref>, f: Forma, x: Ref)
    requires Valido(nodos, raiz, f)
    ensures multiset(Preorden(nodos, f, raiz))[x] == if x in f.miembros then 1 else 0
  {
    if x in f.miembros {
      PreordenUnaVez(nodos, raiz, f, raiz, x);
      var c := Camino(nodos, raiz, f, Some(x));
      assert c[|c| - 1] in c;
    } else {
      assert x !in Preorden(nodos, f, raiz);
    }
  }

  /**
   * Walking from the root visits every member exactly once and nothing
   * else, in each of the three orders.
   */
  lemma RecorridoCompleto(nodos: map<Ref, Nodo>, raiz: Option<Ref>, f: Forma, x: Ref)
    requires Valido(nodos, raiz, f)
    ensures multiset(Preorden(nodos, f, raiz))[x] == if x in f.miembros then 1 else 0
    ensures multiset(Inorden(nodos, f, raiz))[x] == if x in f.miembros then 1 else 0
    ensures multiset(Postorden(nodos, f, raiz))[x] == if x in f.miembros then 1 else 0
  {
    RecorridosPermutacion(nodos, f, raiz);
    PreordenDesdeRaiz(nodos, raiz, f, x);
  }

  /**
   * x is in the subtree of a exactly when a is on the padre chain of x:
   * the downward walk and the upward ancestor test agree.
   */
  lemma SubarbolSiiAncestro(nodos: map<Ref, Nodo>, raiz: Option<Ref>, f: Forma, a: Ref, x: Ref)
    requires Valido(nodos, raiz, f) && a in f.miembros && x in f.miembros
    ensures x in Preorden(nodos, f, Some(a)) <==> a in Camino(nodos, raiz, f, Some(x))
  {
    PreordenUnaVez(nodos, raiz, f, Some(a), x);
  }

  /**
   * buscarPorID returns the first node of the preorder walk that carries
   * the id, and NULL when there is none.
   */
  lemma {:induction false} BuscarEsPrimeroEnPreorden(nodos: map<Ref, Nodo>, f: Forma, n: Option<Ref>, id: string)
    requires Bien(nodos, f) && EnArbol(f, n)
    ensures BuscarPorID(nodos, f, n, id) == PrimeroEn(nodos, Preorden(nodos, f, n), id)
    decreases Altura(nodos, f, n)
  {
    match n
    case None =>
    case Some(a) =>
      var izq, der := nodos[a].izq, nodos[a].der;
      BuscarEsPrimeroEnPreorden(nodos, f, izq, id);
      BuscarEsPrimeroEnPreorden(nodos, f, der, id);
      var si, sd := Preorden(nodos, f, izq), Preorden(nodos, f, der);
      assert Preorden(nodos, f, n) == [a] + si + sd;
      PrimeroEnTres(nodos, a, si, sd, id);
  }

  /**
   * With distinct ids, searching from the root finds exactly the member
   * that carries the id, and finds nothing when no member carries it.
   */
  lemma BuscarDesdeRaiz(nodos: map<Ref, Nodo>, raiz: Option<Ref>, f: Forma, id: string)
    requires Valido(nodos, raiz, f) && IdsUnicos(nodos, f)
    ensures forall x :: x in f.miembros ==> (BuscarPorID(nodos, f, raiz, id) == Some(x) <==> nodos[x].id == id)
    ensures BuscarPorID(nodos, f, raiz, id).None? <==> IdLibre(nodos, f, id)
  {
    forall x | x in f.miembros
      ensures x in Preorden(nodos, f, raiz)
    {
      RecorridoCompleto(nodos, raiz, f, x);
    }
  }

  /**
   * A search reads only the records of the tree: changing records outside
   * it does not change what it finds.
   */
  lemma {:induction false} BuscarFuera(nodos: map<Ref, Nodo>, nodos2: map<Ref, Nodo>, f: Forma, n: Option<Ref>, id: string)
    requires Bien(nodos, f) && Bien(nodos2, f) && EnArbol(f, n)
    requires forall r :: r in f.miembros ==> nodos2[r] == nodos[r]
    ensures BuscarPorID(nodos2, f, n, id) == BuscarPorID(nodos, f, n, id)
    decreases Altura(nodos, f, n)
  {
    match n
    case None =>
    case Some(a) =>
      assert nodos2[a] == nodos[a];
      BuscarFuera(nodos, nodos2, f, nodos[a].izq, id);
      BuscarFuera(nodos, nodos2, f, nodos[a].der, id);
  }

  // -----------------------------------------------------------------------
  // esAncestro
  // -----------------------------------------------------------------------

  /**
   * esAncestro(posibleAncestro, nodo): walk the padre chain from nodo
   * (inclusive) and report whether posibleAncestro is met.
   */
  method EsAncestro(nodos: map<Ref, Nodo>, ghost raiz: Option<Ref>, ghost f: Forma,
                    posibleAncestro: Ref, nodo: Option<Ref>) returns (b: bool)
    requires Valido(nodos, raiz, f) && EnArbol(f, nodo)
    ensures b <==> posibleAncestro in Camino(nodos, raiz, f, nodo)
  {
    var n := nodo;
    while n.Some?
      invariant EnArbol(f, n)
      invariant posibleAncestro in Camino(nodos, raiz, f, nodo) <==> posibleAncestro in Camino(nodos, raiz, f, n)
      decreases |Camino(nodos, raiz, f, n)|
    {
      if n.value == posibleAncestro {
        return true;
      }
      n := nodos[n.value].padre;
    }
    return false;
  }

  // -----------------------------------------------------------------------
  // Structural edits
  // -----------------------------------------------------------------------

  /**
   * insertarPersona(raiz, nueva, padreID). It fails, changing nothing, when
   * no node carries padreID, when nueva already has a padre, or when nueva
   * is on the padre chain of the parent. Otherwise it sets nueva->padre
   * first and then takes izq if free, else der if free; when both slots are
   * taken it fails with that padre write left in place, while every slot
   * and the tree itself are unchanged. It does not look at nueva's id.
   */
  method InsertarPersona(nodos: map<Ref, Nodo>, raiz: Option<Ref>, ghost f: Forma, nueva: Ref, padreID: string)
    returns (r: Outcome, nodos': map<Ref, Nodo>, ghost f': Forma)
    requires Valido(nodos, raiz, f) && nueva in nodos
    requires nueva !in f.miembros ==> nodos[nueva].izq.None? && nodos[nueva].der.None?
    ensures Valido(nodos', raiz, f')
    ensures
      var p, v := BuscarPorID(nodos, f, raiz, padreID), nodos[nueva];
      if p.None? then
        r == Fail(PadreNoEncontrado) && nodos' == nodos && f' == f
      else if v.padre.Some? then
        r == Fail(YaTienePadre) && nodos' == nodos && f' == f
      else if nueva in Camino(nodos, raiz, f, p) then
        r == Fail(CreariaCiclo) && nodos' == nodos && f' == f
      else
        var q, conPadre := nodos[p.value], nodos[nueva := v.(padre := p)];
        if q.izq.None? then
          && r == Pass && f'.miembros == f.miembros + {nueva}
          && nodos' == conPadre[p.value := q.(izq := Some(nueva))]
        else if q.der.None? then
          && r == Pass && f'.miembros == f.miembros + {nueva}
          && nodos' == conPadre[p.value := q.(der := Some(nueva))]
        else
          r == Fail(PadreLleno) && nodos' == conPadre && f' == f
    ensures IdsUnicos(nodos, f) && IdLibre(nodos, f, nodos[nueva].id) ==> IdsUnicos(nodos', f')
  {
    var padre := BuscarPorID(nodos, f, raiz, padreID);
    if padre.None? {
      return Fail(PadreNoEncontrado), nodos, f;
    }
    if nodos[nueva].padre.Some? {
      return Fail(YaTienePadre), nodos, f;
    }
    var ciclo := EsAncestro(nodos, raiz, f, nueva, padre);
    if ciclo {
      return Fail(CreariaCiclo), nodos, f;
    }
    var p := padre.value;
    // a parentless member is the root, and the root ends every chain
    ghost var c := Camino(nodos, raiz, f, padre);
    assert c[|c| - 1] in c;
    assert nueva !in f.miembros;
    r, nodos', f' := Colocar(nodos, raiz, f, nueva, p);
  }

  /**
   * The slot step of insertarPersona, for a parentless, childless nueva
   * outside the tree and a padre p inside it: the padre of nueva is set to
   * p first, then the izq slot of p when free, else its der slot, is set to
   * nueva. With both slots taken the padre write stays, and nueva is left
   * outside the tree.
   */
  method Colocar(nodos: map<Ref, Nodo>, ghost raiz: Option<Ref>, ghost f: Forma, nueva: Ref, p: Ref)
    returns (r: Outcome, nodos': map<Ref, Nodo>, ghost f': Forma)
    requires Valido(nodos, raiz, f) && p in f.miembros && nueva in nodos && nueva !in f.miembros
    requires nodos[nueva].padre.None? && nodos[nueva].izq.None? && nodos[nueva].der.None?
    ensures Valido(nodos', raiz, f')
    ensures
      var q, conPadre := nodos[p], nodos[nueva := nodos[nueva].(padre := Some(p))];
      if q.izq.None? then
        r == Pass && f' == Colgado(f, nueva, p) && nodos' == conPadre[p := q.(izq := Some(nueva))]
      else if q.der.None? then
        r == Pass && f' == Colgado(f, nueva, p) && nodos' == conPadre[p := q.(der := Some(nueva))]
      else
        r == Fail(PadreLleno) && f' == f && nodos' == conPadre
    ensures IdsUnicos(nodos, f) && IdLibre(nodos, f, nodos[nueva].id) ==> IdsUnicos(nodos', f')
  {
    var q := nodos[p];
    var conPadre := nodos[nueva := nodos[nueva].(padre := Some(p))];
    if q.izq.None? {
      nodos' := conPadre[p := q.(izq := Some(nueva))];
      Enganchar(nodos, nodos', raiz, f, nueva, p, true);
      return Pass, nodos', Colgado(f, nueva, p);
    } else if q.der.None? {
      nodos' := conPadre[p := q.(der := Some(nueva))];
      Enganchar(nodos, nodos', raiz, f, nueva, p, false);
      return Pass, nodos', Colgado(f, nueva, p);
    } else {
      FueraDelArbol(nodos, conPadre, raiz, f);
      return Fail(PadreLleno), conPadre, f;
    }
  }

  /**
   * anadirPersona: `new Nodo()` (the handle nueva, unused so far) gets the
   * id read in; a duplicate id deletes it again; otherwise it gets the
   * names, and in an empty tree it becomes the root; else it is inserted
   * under padreID and deleted when that fails. A fresh record has no padre
   * and lies on no chain, so only a missing or a full parent can make the
   * insertion fail, and a failed call leaves the arena and the tree as they
   * were.
   */
  method AnadirPersona(nodos: map<Ref, Nodo>, raiz: Option<Ref>, ghost f: Forma, nueva: Ref,
                       id: string, nombre: string, apellido: string, padreID: string)
    returns (r: Outcome, nodos': map<Ref, Nodo>, raiz': Option<Ref>, ghost f': Forma)
    requires Valido(nodos, raiz, f) && IdsUnicos(nodos, f)
    requires nueva !in nodos
    ensures Valido(nodos', raiz', f') && IdsUnicos(nodos', f')
    ensures r.Fail? ==> nodos' == nodos && raiz' == raiz && f' == f
    ensures BuscarPorID(nodos, f, raiz, id).Some? ==> r == Fail(IdDuplicado)
    ensures raiz.None? ==>
              && r == Pass && raiz' == Some(nueva) && f'.miembros == {nueva}
              && nodos' == nodos[nueva := Suelto(id, nombre, apellido)]
    ensures
      var p := BuscarPorID(nodos, f, raiz, padreID);
      raiz.Some? && BuscarPorID(nodos, f, raiz, id).None? ==>
        if p.None? then r == Fail(PadreNoEncontrado)
        else
          var q := nodos[p.value];
          if q.izq.Some? && q.der.Some? then r == Fail(PadreLleno)
          else
            && r == Pass && raiz' == raiz
            && var hijo := nodos[nueva := Suelto(id, nombre, apellido).(padre := p)];
               nodos' == if q.izq.None? then hijo[p.value := q.(izq := Some(nueva))]
                         else hijo[p.value := q.(der := Some(nueva))]
    ensures r == Pass ==> f'.miembros == f.miembros + {nueva} && BuscarPorID(nodos', f', raiz', id) == Some(nueva)
  {
    // new Nodo(): empty strings and NULL pointers; then the id is read in
    var arena := nodos[nueva := Suelto(id, "", "")];
    FueraDelArbol(nodos, arena, raiz, f);
    BuscarFuera(nodos, arena, f, raiz, id);
    if raiz.Some? && BuscarPorID(arena, f, raiz, id).Some? {
      // delete nueva
      Descartado(nodos, nueva, Suelto(id, "", ""), Suelto(id, "", ""));
      nodos' := arena - {nueva};
      assert nodos' == nodos;
      return Fail(IdDuplicado), nodos', raiz, f;
    }
    // the names are read in and the pointers set to NULL
    var leida := Suelto(id, nombre, apellido);
    arena := nodos[nueva := leida];
    if raiz.None? {
      NuevaRaiz(arena, f, nueva);
      return Pass, arena, Some(nueva), SoloRaiz(f, nueva);
    }
    FueraDelArbol(nodos, arena, raiz, f);
    BuscarFuera(nodos, arena, f, raiz, id);
    BuscarFuera(nodos, arena, f, raiz, padreID);
    BuscarDesdeRaiz(arena, raiz, f, id);
    ghost var conPadre := leida.(padre := BuscarPorID(nodos, f, raiz, padreID));
    Reescrito(nodos, nueva, leida, conPadre);
    var ok, tras, f2 := InsertarPersona(arena, raiz, f, nueva, padreID);
    if ok.Fail? {
      // delete nueva
      Descartado(nodos, nueva, leida, conPadre);
      nodos' := tras - {nueva};
      assert nodos' == nodos;
      return ok, nodos', raiz, f;
    }
    BuscarDesdeRaiz(tras, raiz, f2, id);
    return Pass, tras, raiz, f2;
  }

  /**
   * eliminarPersona(raiz, id). It fails, changing nothing, when no node
   * carries the id or when that node has a child. A childless root is
   * deleted and the tree becomes empty; any other childless node is
   * deleted after clearing the slot of its padre that holds it (the izq
   * slot when it holds it, else the der slot).
   */
  method EliminarPersona(nodos: map<Ref, Nodo>, raiz: Option<Ref>, ghost f: Forma, id: string)
    returns (r: Outcome, nodos': map<Ref, Nodo>, raiz': Option<Ref>, ghost f': Forma)
    requires Valido(nodos, raiz, f)
    ensures Valido(nodos', raiz', f')
    ensures
      var o := BuscarPorID(nodos, f, raiz, id);
      if o.None? then
        r == Fail(PersonaNoEncontrada) && nodos' == nodos && raiz' == raiz && f' == f
      else
        var x, v := o.value, nodos[o.value];
        if v.izq.Some? || v.der.Some? then
          r == Fail(TieneHijos) && nodos' == nodos && raiz' == raiz && f' == f
        else if raiz == o then
          r == Pass && raiz' == None && f'.miembros == {} && nodos' == nodos - {x}
        else
          && r == Pass && raiz' == raiz && f'.miembros == f.miembros - {x}
          && v.padre.Some?
          && var q := nodos[v.padre.value];
             && (q.izq == o || q.der == o)
             && nodos' == nodos[v.padre.value := if q.izq == o then q.(izq := None) else q.(der := None)] - {x}
    ensures IdsUnicos(nodos, f) ==> IdsUnicos(nodos', f')
    ensures IdsUnicos(nodos, f) && r == Pass ==> BuscarPorID(nodos', f', raiz', id).None?
  {
    var objetivo := BuscarPorID(nodos, f, raiz, id);
    if objetivo.None? {
      return Fail(PersonaNoEncontrada), nodos, raiz, f;
    }
    var x := objetivo.value;
    if nodos[x].izq.Some? || nodos[x].der.Some? {
      return Fail(TieneHijos), nodos, raiz, f;
    }
    if objetivo == raiz {
      RaizSinHijos(nodos, raiz, f);
      SinRaiz(nodos, raiz, f, x);
      return Pass, nodos - {x}, None, Vacia(f);
    }
    var p := nodos[x].padre.value;
    var sinHijo := nodos;
    if nodos[p].izq == objetivo {
      sinHijo := nodos[p := nodos[p].(izq := None)];
    } else if nodos[p].der == objetivo {
      sinHijo := nodos[p := nodos[p].(der := None)];
    }
    // delete objetivo
    nodos' := sinHijo - {x};
    Desenganchar(nodos, nodos', raiz, f, x, p);
    f' := Sin(f, x);
    if IdsUnicos(nodos, f) {
      BuscarDesdeRaiz(nodos', raiz, f', id);
    }
    return Pass, nodos', raiz, f';
  }

  // -----------------------------------------------------------------------
  // mostrarAscendenciaDetallada
  // -----------------------------------------------------------------------

  /** The other slot of a record that holds a in one of its slots. */
  function OtroHijo(q: Nodo, a: Ref): Option<Ref>
    requires q.izq == Some(a) || q.der == Some(a)
  {
    if q.izq == Some(a) then q.der else q.izq
  }

  /** p is the padre of h and holds h in one of its two distinct slots. */
  ghost predicate Eslabon(nodos: map<Ref, Nodo>, h: Ref, p: Ref)
  {
    && h in nodos && p in nodos
    && nodos[h].padre == Some(p)
    && (nodos[p].izq == Some(h) || nodos[p].der == Some(h))
    && nodos[p].izq != nodos[p].der
  }

  /**
   * c is a padre chain ending at a root: every entry after the first is the
   * padre of the one before and holds it in one of its two distinct slots,
   * and the last entry has no padre.
   */
  ghost predicate Cadena(nodos: map<Ref, Nodo>, c: seq<Ref>)
  {
    && c != []
    && (forall i :: 0 <= i < |c| ==> c[i] in nodos)
    && (forall i :: 0 <= i < |c| - 1 ==> Eslabon(nodos, c[i], c[i + 1]))
    && nodos[c[|c| - 1]].padre.None?
  }

  /** The padre chain of a member is a chain ending at the root. */
  lemma CaminoEsCadena(nodos: map<Ref, Nodo>, raiz: Option<Ref>, f: Forma, x: Ref)
    requires Valido(nodos, raiz, f) && x in f.miembros
    ensures Cadena(nodos, Camino(nodos, raiz, f, Some(x)))
  {
    var c := Camino(nodos, raiz, f, Some(x));
    forall i | 0 <= i < |c| - 1
      ensures Eslabon(nodos, c[i], c[i + 1])
    {
      assert nodos[c[i]].padre == Some(c[i + 1]);
      assert nodos[c[i + 1]].izq.Some? ==> nodos[c[i + 1]].izq != nodos[c[i + 1]].der;
    }
  }

  /**
   * Level j + 1 of the detailed report along the chain c (persona first, the
   * root last): the node at distance j from the root. The root is tagged as
   * such and has no sibling; below it a level shows the other child of its
   * padre as the sibling, and only the sibling of persona is tagged
   * "(hermano)".
   */
  ghost function NivelDe(nodos: map<Ref, Nodo>, c: seq<Ref>, j: nat): Nivel
    requires Cadena(nodos, c) && j < |c|
  {
    var a := c[|c| - 1 - j];
    if j == 0 then Nivel(1, a, Raiz, None, false)
    else
      var h := OtroHijo(nodos[c[|c| - j]], a);
      Nivel(j + 1, a, if j == |c| - 1 then Buscado else Padre, h, j == |c| - 1 && h.Some?)
  }

  /** Reference definition of the detailed report along c: one level per entry, from the root down. */
  ghost function Niveles(nodos: map<Ref, Nodo>, c: seq<Ref>): (n: seq<Nivel>)
    requires Cadena(nodos, c)
    ensures |n| == |c|
    ensures forall j :: 0 <= j < |n| ==> n[j] == NivelDe(nodos, c, j)
  {
    seq(|c|, j requires 0 <= j < |c| => NivelDe(nodos, c, j))
  }

  /**
   * What one level of the detailed report shows: its number and the node at
   * that distance from the root; the root level plain; below it, a child of
   * the level above, tagged "(buscado)" at persona and "(padre)" above it,
   * beside a sibling that is a different child of the same padre, shown
   * exactly when that padre has two children and tagged "(hermano)" only at
   * persona.
   */
  lemma NivelDeMuestra(nodos: map<Ref, Nodo>, c: seq<Ref>, j: nat)
    requires Cadena(nodos, c) && j < |c|
    ensures var v := NivelDe(nodos, c, j);
      && v.numero == j + 1 && v.persona == c[|c| - 1 - j]
      && (v.hermanoMarcado <==> j == |c| - 1 && v.hermano.Some?)
      && (j == 0 ==> v == Nivel(1, c[|c| - 1], Raiz, None, false))
      && (j > 0 ==>
            var p := nodos[c[|c| - j]];
            && nodos[v.persona].padre == Some(c[|c| - j])
            && v.rol == (if j == |c| - 1 then Buscado else Padre)
            && (v.hermano.Some? <==> p.izq.Some? && p.der.Some?)
            && (v.hermano.Some? ==> v.hermano.value != v.persona && v.hermano == OtroHijo(p, v.persona)))
  {
    if j > 0 {
      var i := |c| - 1 - j;
      assert nodos[c[i]].padre == Some(c[i + 1]);
    }
  }

  /**
   * The detailed report of a member runs from the root, as level 1, down to
   * the member, as level depth + 1, tagged "(buscado)" when it is not the
   * root.
   */
  lemma AscendenciaDeRaizAPersona(nodos: map<Ref, Nodo>, raiz: Option<Ref>, f: Forma, persona: Ref)
    requires Valido(nodos, raiz, f) && persona in f.miembros
    ensures Cadena(nodos, Camino(nodos, raiz, f, Some(persona)))
    ensures var n := Niveles(nodos, Camino(nodos, raiz, f, Some(persona)));
      && |n| == f.prof[persona] + 1
      && n[0] == Nivel(1, raiz.value, Raiz, None, false)
      && n[|n| - 1].persona == persona
      && (|n| > 1 ==> n[|n| - 1].rol == Buscado)
  {
    var c := Camino(nodos, raiz, f, Some(persona));
    CaminoEsCadena(nodos, raiz, f, persona);
    NivelDeMuestra(nodos, c, 0);
    NivelDeMuestra(nodos, c, |c| - 1);
  }

  /**
   * What one pass of the printing loop shows for actual = camino[i], with
   * nivel entries in camino: a node with a padre is printed with its tag and
   * the sibling found by the two slot tests; one without is the root.
   */
  function NivelImpreso(nodos: map<Ref, Nodo>, actual: Ref, i: nat, nivel: nat): (v: Nivel)
    requires i < nivel && actual in nodos
    requires nodos[actual].padre.Some? ==> nodos[actual].padre.value in nodos
    ensures v.numero == nivel - i && v.persona == actual
    ensures nodos[actual].padre.None? ==> v.rol == Raiz && v.hermano.None?
    ensures v.hermano.Some? ==>
              var q := nodos[nodos[actual].padre.value];
              (q.izq == Some(actual) && v.hermano == q.der) || (q.der == Some(actual) && v.hermano == q.izq)
    ensures v.hermanoMarcado <==> i == 0 && v.hermano.Some?
  {
    match nodos[actual].padre
    case Some(padre) =>
      var q := nodos[padre];
      var hermano :=
        if q.izq == Some(actual) && q.der.Some? then q.der
        else if q.der == Some(actual) && q.izq.Some? then q.izq
        else None;
      var rol := if i == nivel - 1 then Raiz else if i == 0 then Buscado else Padre;
      Nivel(nivel - i, actual, rol, hermano, hermano.Some? && i == 0)
    case None => Nivel(nivel - i, actual, Raiz, None, false)
  }

  /**
   * The pass for c[i] prints level |c| - i as NivelDe defines it. In
   * particular the "(Raiz)" tag inside the padre branch is never printed,
   * since only the last entry of the chain, which has no padre, is the root.
   */
  lemma NivelImpresoEsNivelDe(nodos: map<Ref, Nodo>, c: seq<Ref>, i: nat)
    requires Cadena(nodos, c) && i < |c|
    ensures nodos[c[i]].padre.Some? ==> nodos[c[i]].padre.value in nodos
    ensures NivelImpreso(nodos, c[i], i, |c|) == NivelDe(nodos, c, |c| - 1 - i)
  {
    if i < |c| - 1 {
      assert Eslabon(nodos, c[i], c[i + 1]);
    }
  }

  /**
   * The first loop of mostrarAscendenciaDetallada: camino[0..nivel) receives
   * the padre chain of persona, persona first. The chain must fit in the
   * array.
   */
  method GuardarCamino(nodos: map<Ref, Nodo>, ghost raiz: Option<Ref>, ghost f: Forma, persona: Ref)
    returns (camino: array<Ref>, nivel: nat)
    requires Valido(nodos, raiz, f) && persona in f.miembros && f.prof[persona] < 100
    ensures fresh(camino) && camino.Length == 100
    ensures nivel == |Camino(nodos, raiz, f, Some(persona))| <= camino.Length
    ensures camino[..nivel] == Camino(nodos, raiz, f, Some(persona))
  {
    ghost var c := Camino(nodos, raiz, f, Some(persona));
    camino := new Ref[100];
    nivel := 0;
    var actual := Some(persona);
    while actual.Some?
      invariant nivel <= |c|
      invariant actual == if nivel < |c| then Some(c[nivel]) else None
      invariant camino[..nivel] == c[..nivel]
      decreases |c| - nivel
    {
      camino[nivel] := actual.value;
      nivel := nivel + 1;
      actual := nodos[actual.value].padre;
    }
  }

  /**
   * The second loop of mostrarAscendenciaDetallada: camino[nivel - 1] down
   * to camino[0] are printed as levels 1 to nivel.
   */
  method ImprimirCamino(nodos: map<Ref, Nodo>, camino: array<Ref>, nivel: nat, ghost c: seq<Ref>)
    returns (niveles: seq<Nivel>)
    requires Cadena(nodos, c) && nivel == |c| <= camino.Length && camino[..nivel] == c
    ensures niveles == Niveles(nodos, c)
  {
    niveles := [];
    for i := nivel downto 0
      invariant |niveles| == nivel - i
      invariant forall j :: 0 <= j < |niveles| ==> niveles[j] == NivelDe(nodos, c, j)
    {
      assert camino[i] == c[i];
      NivelImpresoEsNivelDe(nodos, c, i);
      niveles := niveles + [NivelImpreso(nodos, camino[i], i, nivel)];
    }
  }

  /**
   * mostrarAscendenciaDetallada(persona): a NULL persona is reported as not
   * found; otherwise the padre chain is stored in camino[100] from persona
   * up, and then read back from the root down to print one level per entry.
   */
  method MostrarAscendenciaDetallada(nodos: map<Ref, Nodo>, ghost raiz: Option<Ref>, ghost f: Forma,
                                     persona: Option<Ref>) returns (r: Result<seq<Nivel>>)
    requires Valido(nodos, raiz, f) && EnArbol(f, persona)
    requires persona.Some? ==> f.prof[persona.value] < 100
    ensures persona.None? ==> r == Failure(PersonaNoEncontrada)
    ensures persona.Some? ==> && Cadena(nodos, Camino(nodos, raiz, f, persona))
                              && r == Success(Niveles(nodos, Camino(nodos, raiz, f, persona)))
  {
    if persona.None? {
      return Failure(PersonaNoEncontrada);
    }
    var camino, nivel := GuardarCamino(nodos, raiz, f, persona.value);
    CaminoEsCadena(nodos, raiz, f, persona.value);
    var niveles := ImprimirCamino(nodos, camino, nivel, Camino(nodos, raiz, f, persona));
    return Success(niveles);
  }
}
