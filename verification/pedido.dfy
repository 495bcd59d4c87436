/** The `Pedido` class of the react-food exercise: read-only items, two
    aggregate getters, and two commands that hand the new item list to the
    `setState` callback. Here each command returns that list. */
module Pedido {
  import opened Itens
  import PedidoReducer

  /** The `preco` getter. */
  method Preco(itens: seq<ItemPedido>) returns (total: int)
    ensures total == TotalPreco(itens)
  {
    total := 0;
    var i := 0;
    while i < |itens|
      invariant 0 <= i <= |itens|
      invariant total == TotalPreco(itens[..i])
    {
      assert itens[..i + 1][..i] == itens[..i];
      total := total + itens[i].quantidade * itens[i].produto.preco;
      i := i + 1;
    }
    assert itens[..i] == itens;
  }

  /** The `quantidade` getter. */
  method Quantidade(itens: seq<ItemPedido>) returns (total: int)
    ensures total == TotalQuantidade(itens)
  {
    total := 0;
    var i := 0;
    while i < |itens|
      invariant 0 <= i <= |itens|
      invariant total == TotalQuantidade(itens[..i])
    {
      assert itens[..i + 1][..i] == itens[..i];
      total := total + itens[i].quantidade;
      i := i + 1;
    }
    assert itens[..i] == itens;
  }

  /** The list `adicionaProduto` passes to `setState`: the same list the
      reducer's `adiciona` produces. */
  method AdicionaProduto(itens: seq<ItemPedido>, produto: Produto) returns (novosItens: seq<ItemPedido>)
    ensures novosItens == PedidoReducer.Reducer(itens, PedidoReducer.Adiciona(produto))
    ensures TotalQuantidade(novosItens) == TotalQuantidade(itens) + 1
  {
    var idx := 0;
    while idx < |itens| && itens[idx].produto.id != produto.id
      invariant 0 <= idx <= |itens|
      invariant forall j :: 0 <= j < idx ==> itens[j].produto.id != produto.id
    {
      idx := idx + 1;
    }
    if idx < |itens| {
      novosItens := itens[idx := ItemPedido(itens[idx].produto, itens[idx].quantidade + 1)];
    } else {
      novosItens := itens + [ItemPedido(produto, 1)];
    }
    PedidoReducer.AdicionaContaUmaUnidade(itens, produto);
  }

  /** The list `limpa` passes to `setState`: empty, so both getters then
      answer 0. */
  method Limpa(itens: seq<ItemPedido>) returns (novosItens: seq<ItemPedido>)
    ensures novosItens == []
    ensures TotalQuantidade(novosItens) == 0 && TotalPreco(novosItens) == 0
  {
    novosItens := [];
  }
}
