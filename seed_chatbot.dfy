/**
  The `seed_chatbot` management command: it empties the bot-response table
  and fills it with the nine predefined responses, one row at a time, then
  reports how many it created. Rows get auto-increment ids that deletion does
  not reuse, so a reseed gives the same rows under new ids.
 */
module SeedChatbot {

  /** A knowledge-base entry: its category tag, comma-separated keywords, reply text and priority. */
  datatype BotResponse = BotResponse(category: string, keywords: string, responseText: string, priority: int)

  /** A stored row: the auto-assigned primary key and the entry. */
  datatype Row = Row(id: nat, response: BotResponse)

  /** The nine category choices declared for BotResponse in migration 0003. */
  const DeclaredCategories: set<string> := {
    "greeting", "product", "order", "delivery", "payment",
    "custom", "complaint", "farewell", "fallback"
  }

  /** The reply texts of the seed entries. */
  const GreetingReply: string :=
    "Hello! Welcome to Floral Couture. How can I assist you today?"
  const GoodDayReply: string :=
    "Good day! How can I help you with your floral needs?"
  const FlowersReply: string :=
    "We have a beautiful selection of roses and other flowers! You can browse our collection on the Bouquets page or design your own arrangement."
  const BouquetReply: string :=
    "Our bouquets are handcrafted with care. You can browse pre-made arrangements or create your custom bouquet with your favorite flowers!"
  const DeliveryReply: string :=
    "We offer same-day delivery for orders placed before 2pm, and next-day delivery for later orders. You can select your preferred delivery date at checkout."
  const OrderReply: string :=
    "To check your order status, please log in to your account and visit the Orders section. If you have any specific concerns, please provide your order number."
  const CustomReply: string :=
    "Our custom bouquet service allows you to choose your flowers, colors, and arrangement style. Visit our Customize page to create your perfect arrangement!"
  const FarewellReply: string :=
    "Thank you for chatting with us! If you need anything else, feel free to reach out. Have a wonderful day!"
  const FallbackReply: string :=
    "I'm here to help! You can ask about our bouquets, delivery options, or custom arrangements. If you need to speak with a human, please use our Contact page."

  /** The rows the command inserts, in order. */
  function SeedResponses(): (rs: seq<BotResponse>)
    ensures |rs| == 9
    ensures forall i :: 0 <= i < |rs| ==> rs[i].category in DeclaredCategories
    ensures forall i :: 0 <= i < |rs| ==> 1 <= rs[i].priority <= 3
  {
    [
      BotResponse("greeting", "hello,hi,hey,greetings", GreetingReply, 1),
      BotResponse("greeting", "good morning,good afternoon,good evening", GoodDayReply, 1),
      BotResponse("product", "rose,roses,flower,flowers", FlowersReply, 2),
      BotResponse("product", "bouquet,arrangement,design", BouquetReply, 2),
      BotResponse("delivery", "delivery,shipping,deliver,ship,time", DeliveryReply, 2),
      BotResponse("order", "order,status,tracking", OrderReply, 2),
      BotResponse("custom", "custom,personalize,customize,special", CustomReply, 3),
      BotResponse("farewell", "bye,goodbye,thanks,thank you", FarewellReply, 1),
      BotResponse("fallback", "help,support,confused,dont understand", FallbackReply, 1)
    ]
  }

  /** The number a string of decimal digits denotes, most significant digit first. */
  function DecimalValue(s: string): nat {
    if s == [] then 0
    else
      var d := s[|s| - 1] as int - '0' as int;
      10 * DecimalValue(s[..|s| - 1]) + (if 0 <= d then d else 0)
  }

  /** The decimal digits of `n`, as an f-string prints it. */
  function NatToString(n: nat): (s: string)
    ensures |s| >= 1
    ensures forall i :: 0 <= i < |s| ==> '0' <= s[i] <= '9'
    ensures |s| > 1 ==> s[0] != '0'
    ensures DecimalValue(s) == n
  {
    var digit := ['0' + (n % 10) as char];
    if n < 10 then digit else NatToString(n / 10) + digit
  }

  /** The success line the command writes. */
  function SuccessMessage(count: nat): string {
    "Successfully created " + NatToString(count) + " chatbot responses"
  }

  /** The entries of a list of rows, in order. */
  function Responses(rows: seq<Row>): seq<BotResponse> {
    seq(|rows|, i requires 0 <= i < |rows| => rows[i].response)
  }

  /** Appending a row appends its entry. */
  lemma ResponsesAppend(rows: seq<Row>, row: Row)
    ensures Responses(rows + [row]) == Responses(rows) + [row.response]
  {
    assert |Responses(rows + [row])| == |Responses(rows) + [row.response]|;
  }

  class BotResponseTable {
    var rows: seq<Row>
    var nextId: nat

    /** Ids increase along the table and stay below the next id to hand out. */
    ghost predicate Valid()
      reads this
    {
      forall i :: 0 <= i < |rows| ==>
        rows[i].id < nextId && forall j :: i < j < |rows| ==> rows[i].id < rows[j].id
    }

    constructor ()
      ensures Valid() && rows == []
    {
      rows, nextId := [], 1;
    }

    /** `BotResponse.objects.all().delete()`: every row goes; the id counter stays. */
    method DeleteAll()
      requires Valid()
      modifies this
      ensures Valid() && rows == [] && nextId == old(nextId)
    {
      rows := [];
    }

    /** `BotResponse.objects.create(...)`: appends the entry under a fresh id. */
    method Create(response: BotResponse) returns (row: Row)
      requires Valid()
      modifies this
      ensures Valid()
      ensures row == Row(old(nextId), response) && rows == old(rows) + [row]
      ensures nextId == old(nextId) + 1
    {
      row := Row(nextId, response);
      rows := rows + [row];
      nextId := nextId + 1;
    }

    /**
      `handle`: clears the table, inserts the seed entries in order and
      reports their number. Afterwards the table holds exactly the seed
      entries, every one under an id handed out by this run.
     */
    method Handle() returns (message: string)
      requires Valid()
      modifies this
      ensures Valid()
      ensures Responses(rows) == SeedResponses()
      ensures forall i :: 0 <= i < |rows| ==> rows[i].id == old(nextId) + i
      ensures nextId == old(nextId) + |rows|
      ensures forall r :: r in old(rows) ==> r !in rows
      ensures message == SuccessMessage(|rows|)
    {
      DeleteAll();
      var responses := SeedResponses();
      for i := 0 to |responses|
        invariant Valid()
        invariant Responses(rows) == responses[..i]
        invariant |rows| == i
        invariant forall k :: 0 <= k < |rows| ==> rows[k].id == old(nextId) + k
        invariant nextId == old(nextId) + i
      {
        ghost var before := rows;
        var row := Create(responses[i]);
        ResponsesAppend(before, row);
        assert responses[..i + 1] == responses[..i] + [responses[i]];
      }
      assert responses[..|responses|] == responses;
      forall r | r in old(rows)
        ensures r !in rows
      {
        var j :| 0 <= j < |old(rows)| && old(rows)[j] == r;
        assert r.id < old(nextId);
      }
      message := SuccessMessage(|responses|);
    }
  }

  /** Running the command twice leaves the same entries, and as many, as running it once. */
  method ReseedIsIdempotent(table: BotResponseTable) returns (first: seq<BotResponse>, second: seq<BotResponse>)
    requires table.Valid()
    modifies table
    ensures first == second == SeedResponses()
    ensures |table.rows| == 9
  {
    var _ := table.Handle();
    first := Responses(table.rows);
    var _ := table.Handle();
    second := Responses(table.rows);
  }

  /** The command reports nine created responses. */
  lemma ReportedCount()
    ensures SuccessMessage(|SeedResponses()|) == "Successfully created 9 chatbot responses"
  {
  }
}
