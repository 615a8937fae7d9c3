# Deposit detection and confirmation in a multi-chain wallet layer

This project models, in Dafny, the wallet layer of a Laravel application.
The layer detects incoming deposits on five chains (Bitcoin, Litecoin,
Binance Smart Chain, Ethereum and Tron) and decides when they are confirmed.
The project also models the application's metric aggregation service and its
aggregated-metric data object.

Every answer from a node, a client library or the database is an input to
the model. Decoded JSON is a `Values.Value`, a model of PHP arrays and
scalars. The outcome of one request (`Answer`) is either the decoded result
or the exception that was thrown. The client libraries' conversions
(`fromTron`, `fromHex`, `getnewaddress`, …) are function-typed parameters.

The project is split into these modules:

- `JsonRpc`, `EthereumRpc` and `BinanceSmartChainRpc` model the two
  transports. They cover the request object of section 4 of the JSON-RPC 2.0
  specification and the decoding of the response object of section 5.
  - `EthereumRpc` is a class with the request-id counter it updates.
  - The Binance Smart Chain transport always posts id 1.
- `EvmWallet` holds what the two EVM adapters share line for line:
  - the six-state transaction status machine;
  - the confirmation depth check;
  - transaction normalisation, including call-data truncation;
  - the per-transaction deposit filter;
  - the EIP-1559 fee formula.
- `BinanceSmartChainWallet` holds:
  - the batched block scanner, whose loops are methods proved against
    recursive specification functions;
  - the receipt-polling loop;
  - the network names.
- `EthereumWallet` holds the sequential block scanner, which carries the
  hash of the last block visited as its checkpoint, and the network names.
- `TronWallet` covers:
  - the Tron scanner, which counts confirmations with +1;
  - the status and deposit checks (the deposit check counts without +1);
  - the balance and token-balance lookups.
- `UtxoWallet` models the Bitcoin and Litecoin adapters, which differ only
  in their defaults (3 and 6).
- `WalletFactory` covers symbol dispatch with PHP 8 loose `switch`
  comparison.
- `EncryptionHelper` covers:
  - the fixed-point zero-balance test, as digit sequences
    (`number_format` rounding half away from zero, then `bcmul` at scale 0);
  - the lazily built encrypter, as a class with a nullable field.
- `AggregatedMetricDto` and `MetricAggregation` cover the read-only data
  object and the per-day grouping, filtering and aggregation.
- `Numerals` and `Values` are supporting modules:
  - `hexdec` and `dechex`, where `dechex` prints a negative number as its
    64-bit unsigned value;
  - zero-padded decimal text;
  - PHP truthiness, `isset`, loose comparison and array access.

The off-by-one differences between call sites are stated as they are in the
code, not corrected:

- The EVM scanners count `current - blockNumber`, while the status and
  deposit checks count `current - block + 1` (`ScannerDepthIsOneBelowConfirmations`).
- Tron's scanner counts `current - i + 1`, while Tron's deposit check counts
  `current - blockNumber` (`ScannerCountsOneMoreThanTracker`).
- The UTXO status needs more than 6 confirmations, while the deposit check
  needs at least the requirement. So on Litecoin, 6 confirmations give a
  confirmed deposit whose status is still 'pending'
  (`DepositConfirmedBeforeStatus`).

Three behaviours of the code are easy to misread:

- A batch reply that is an empty array is an array, so the Binance Smart
  Chain scanner returns an empty listing for it, not `false`.
- The fee formula averages the first row of `reward` from `eth_feeHistory`.
  That row holds the two percentiles of the oldest block, not one percentile
  across the window.
- `isZeroBalance(1e-19, 18)` is true, because `number_format` rounds the
  value away before `bcmul` sees it (`DefaultPrecisionExamples`).

## Model

| member | source | states |
|---|---|---|
| JsonRpc.Envelope | app/Blockchain/Wallets/EthereumRPC.php:18-23 | the request object has jsonrpc "2.0" and carries the method, params and id exactly as given |
| JsonRpc.ParseEncode | app/Blockchain/Wallets/EthereumRPC.php:18-23 | the array that is posted reads back as exactly the request that was built |
| EthereumRpc.Decode | app/Blockchain/Wallets/EthereumRPC.php:31-42 | success iff a body came back without a set `error` member, and then the value is the `result` member; a curl failure throws 'CURL Error: ' plus curl's text; an error member throws 'ETH RPC Error: ' plus its message |
| EthereumRpc.EthereumRpc.constructor | app/Blockchain/Wallets/EthereumRPC.php:10-13 | the url is the one given and the counter starts at 0 |
| EthereumRpc.EthereumRpc.Call | app/Blockchain/Wallets/EthereumRPC.php:15-43 | the id goes up by exactly one before the request is built, the request carries the new id, and the answer is the decoding of the exchange for that request |
| EthereumRpc.FirstCalls | app/Blockchain/Wallets/EthereumRPC.php:8-17 | on a fresh transport the first two calls carry ids 1 and 2, both with version "2.0" |
| BinanceSmartChainRpc.Configure | app/Blockchain/Wallets/BinanceSmartChainRPC.php:12-18 | the client is configured with base_uri = url and a 30-second timeout |
| BinanceSmartChainRpc.RequestFor | app/Blockchain/Wallets/BinanceSmartChainRPC.php:23-30 | every request is {jsonrpc '2.0', method, params, id 1} |
| BinanceSmartChainRpc.Decode | app/Blockchain/Wallets/BinanceSmartChainRPC.php:32-41 | success iff a body came back without a set `error` member, and then the value is `result`; an error member throws its message and its code; a Guzzle failure throws 'RPC request failed: ' plus its message |
| BinanceSmartChainRpc.Call | app/Blockchain/Wallets/BinanceSmartChainRPC.php:20-42 | a call decodes what the transport returns for the id-1 envelope |
| BinanceSmartChainRpc.IdNeverVaries | app/Blockchain/Wallets/BinanceSmartChainRPC.php:28 | any two requests carry the same id, 1 |
| EvmWallet.TransactionStatus | app/Blockchain/Wallets/BinanceSmartChainWallet.php:97-140 | each of the six statuses holds iff its condition holds. NOT_FOUND: the transaction is falsy. PENDING: there is no blockNumber or the receipt is falsy. FAILED: receipt status ≠ 1. CONFIRMED or SUCCESS: current − block + 1 is ≥ 12 or < 12. ERROR: a request that was reached threw. EthereumWallet.php:83-126 is the same code |
| EvmWallet.ConfirmedIsStable | app/Blockchain/Wallets/BinanceSmartChainWallet.php:124-129 | a CONFIRMED transaction stays CONFIRMED under any higher head |
| EvmWallet.DepositConfirmed | app/Blockchain/Wallets/BinanceSmartChainWallet.php:164-192 | true iff the transaction was found and mined, the head request succeeded, and current − block + 1 ≥ required; a missing transaction, an unmined transaction or an exception give false (EthereumWallet.php:168-195 is the same code) |
| EvmWallet.ConfirmedStatusPassesDepositCheck | app/Blockchain/Wallets/BinanceSmartChainWallet.php:97-192 | on the same answers, a CONFIRMED status passes the deposit check for any requirement up to 12 |
| EvmWallet.FormatInput | app/Blockchain/Wallets/BinanceSmartChainWallet.php:293-299 | call data of at most 66 characters is unchanged; longer data becomes its first 66 characters followed by '...' |
| EvmWallet.FormatInputIdempotent | app/Blockchain/Wallets/BinanceSmartChainWallet.php:293-299 | shortening an already shortened value changes nothing |
| EvmWallet.FormatTransaction | app/Blockchain/Wallets/BinanceSmartChainWallet.php:255-286 | the loop builds the formatted transaction key by key, in the input's order (EthereumWallet.php:222-253 is the same code) |
| EvmWallet.FormattedLookup | app/Blockchain/Wallets/BinanceSmartChainWallet.php:259-283 | formatting keeps exactly the input's keys. A present key reads back as its formatted value: the eight numeric fields hex-decoded, `value` converted from wei, `input` truncated, anything else unchanged |
| EvmWallet.Record | app/Blockchain/Wallets/BinanceSmartChainWallet.php:235-243 | an emitted record carries confirmations = current − blockNumber and category 'receive' |
| EvmWallet.ScanTransactions | app/Blockchain/Wallets/BinanceSmartChainWallet.php:230-245 | the inner scan loop yields the records of the qualifying transactions of one block, in order; an entry that is not an array stops it with a TypeError |
| EvmWallet.TransactionDepositsSucceed | app/Blockchain/Wallets/BinanceSmartChainWallet.php:230-231 | the scan of a block's list succeeds iff every entry is an array |
| EvmWallet.TransactionDepositsMembership | app/Blockchain/Wallets/BinanceSmartChainWallet.php:229-245 | a record is emitted iff it is the record of a listed transaction that qualifies |
| EvmWallet.QualifiesIffNonZeroWei | app/Blockchain/Wallets/BinanceSmartChainWallet.php:232-234 | in the node's own terms, a transaction qualifies iff current − blockNumber ≥ target and its wei value is present and non-zero |
| EvmWallet.FormattedAmountIsZero | app/Blockchain/Wallets/BinanceSmartChainWallet.php:232-234 | the converted amount fails the zero-balance test exactly when the wei amount is present and non-zero |
| EvmWallet.ScannerDepthIsOneBelowConfirmations | app/Blockchain/Wallets/BinanceSmartChainWallet.php:232 | the scanner's depth is one less than the current − block + 1 that line 184 counts |
| EvmWallet.PriorityFeeBounds | app/Blockchain/Wallets/BinanceSmartChainWallet.php:310-314 | the priority fee p is 1.5 × the mean fee, truncated: 2n·p ≤ 3·sum < 2n·p + 2n |
| EvmWallet.FetchGasPrices | app/Blockchain/Wallets/BinanceSmartChainWallet.php:301-323 | success iff both requests succeed and the first reward row is a non-empty array. On success the fields are '0x' + dechex(p) and '0x' + dechex(2·baseFee + p) (EthereumWallet.php:273-295 is the same code) |
| EvmWallet.FeeCapCoversBaseFee | app/Blockchain/Wallets/BinanceSmartChainWallet.php:314-321 | read back, the fee cap is 2·baseFee plus the priority fee, so it is never below 2·baseFee (within 64 bits) |
| BinanceSmartChainWallet.IsDepositConfirmed | app/Blockchain/Wallets/BinanceSmartChainWallet.php:164-192 | the deposit check with the requirement taken from the argument, else the configured value, else 10 (line 22) |
| BinanceSmartChainWallet.BlockRequest | app/Blockchain/Wallets/BinanceSmartChainWallet.php:210-215 | the request for height i is eth_getBlockByNumber('0x' + dechex(i), true) with id i |
| BinanceSmartChainWallet.BlockRequestNamesHeight | app/Blockchain/Wallets/BinanceSmartChainWallet.php:213 | for a height in 64-bit range, the hex parameter reads back as the height |
| BinanceSmartChainWallet.BatchCall | app/Blockchain/Wallets/BinanceSmartChainWallet.php:325-335 | a failed post yields null; otherwise the decoded body |
| BinanceSmartChainWallet.BuildRequests | app/Blockchain/Wallets/BinanceSmartChainWallet.php:207-216 | the batch holds one request per height from lo to hi, ascending, and nothing else |
| BinanceSmartChainWallet.ScanResponses | app/Blockchain/Wallets/BinanceSmartChainWallet.php:226-247 | the outer loop over the batch replies yields the records of every listed block in order, or the first TypeError |
| BinanceSmartChainWallet.BatchDepositsMembership | app/Blockchain/Wallets/BinanceSmartChainWallet.php:226-247 | a successful scan holds a record iff it belongs to a qualifying transaction listed in some reply's block |
| BinanceSmartChainWallet.ListSinceBlock | app/Blockchain/Wallets/BinanceSmartChainWallet.php:194-253 | a failed head request throws and posts nothing. Otherwise start is the numeric reference or the head, and the batch is exactly the heights start − target … head, ascending, with ids equal to the heights. A non-array reply gives `false`; otherwise the listing has the records and lastblock = start |
| BinanceSmartChainWallet.ListingMembership | app/Blockchain/Wallets/BinanceSmartChainWallet.php:226-252 | a listing's lastblock is the start, and it holds a record iff a returned block lists that record's qualifying transaction |
| BinanceSmartChainWallet.WaitForTransactionReceipt | app/Blockchain/Wallets/BinanceSmartChainWallet.php:337-347 | the loop returns what polling specifies over `maxAttempts` attempts (50 when not given), and counts the requests it made |
| BinanceSmartChainWallet.PollReturnsFirstReceipt | app/Blockchain/Wallets/BinanceSmartChainWallet.php:339-343 | a returned receipt is the first non-null answer; it comes within maxAttempts requests, and every earlier answer was null |
| BinanceSmartChainWallet.PollGivesUp | app/Blockchain/Wallets/BinanceSmartChainWallet.php:339-346 | when all maxAttempts answers are null, exactly maxAttempts requests are made and 'Transaction receipt not found after maximum attempts' is thrown |
| BinanceSmartChainWallet.PollAttemptsBounded | app/Blockchain/Wallets/BinanceSmartChainWallet.php:339 | polling never makes more than maxAttempts requests |
| BinanceSmartChainWallet.GetNetworkName | app/Blockchain/Wallets/BinanceSmartChainWallet.php:147-157 | a value loosely equal to '56' names the mainnet, else one equal to '97' names the testnet, else 'Unknown network (ID: …)' |
| BinanceSmartChainWallet.NetworkNames | app/Blockchain/Wallets/BinanceSmartChainWallet.php:147-157 | '56', '97' and the integer 97 are named, and '1' is unknown |
| EthereumWallet.IsDepositConfirmed | app/Blockchain/Wallets/EthereumWallet.php:168-195 | the deposit check with required defaulting to 3 |
| EthereumWallet.ScanBlocks | app/Blockchain/Wallets/EthereumWallet.php:139-160 | the loop requests heights lo, lo+1, … in order, one each, stops at the first exception, and returns what the scan function specifies |
| EthereumWallet.ListSinceBlock | app/Blockchain/Wallets/EthereumWallet.php:128-166 | the head and the hash lookup throw through. The window runs from (hash's block number or head) − target up to the head, each height requested once in order, and the outcome is the scan of that window; the target defaults to 20 |
| EthereumWallet.BlocksMembership | app/Blockchain/Wallets/EthereumWallet.php:139-157 | a successful scan holds a record iff it belongs to a qualifying transaction of a block in the window |
| EthereumWallet.LastBlockIsHeadHash | app/Blockchain/Wallets/EthereumWallet.php:159-165 | lastblock is the hash of the block at the head height, or null when the window is empty |
| EthereumWallet.ListedRecordsAreDeep | app/Blockchain/Wallets/EthereumWallet.php:144-155 | every listed record has at least `target` confirmations and category 'receive' |
| EthereumWallet.GetNetworkName | app/Blockchain/Wallets/EthereumWallet.php:202-220 | the first of 1, 3, 4, 5, 42 and 11155111 the id loosely equals names Mainnet, Ropsten, Rinkeby, Goerli, Kovan or Sepolia; an id equal to none of them is 'Unknown network (ID: …)' |
| EthereumWallet.NetworkNames | app/Blockchain/Wallets/EthereumWallet.php:202-220 | '1', '5' and '42' name Mainnet, Goerli and Kovan |
| EthereumWallet.OtherNetworkNames | app/Blockchain/Wallets/EthereumWallet.php:202-220 | the integers 42 and 11155111 name Kovan and Sepolia; '56' is unknown |
| TronWallet.TronRecord | app/Blockchain/Wallets/TronWallet.php:115-133 | a record has confirmations current − i + 1, blocknum i and category 'receive', and its amount is fromTron(amount) when an amount is set, else 0 |
| TronWallet.ScanBlock | app/Blockchain/Wallets/TronWallet.php:114-135 | the inner loop yields the records of one block's kept transactions, in order |
| TronWallet.ScanWindow | app/Blockchain/Wallets/TronWallet.php:109-136 | the outer loop requests heights lo, lo+1, … in order, one each, and returns what the window function specifies |
| TronWallet.LastBlock | app/Blockchain/Wallets/TronWallet.php:140 | the current block's blockID, or '' when it is not set |
| TronWallet.ListSinceBlock | app/Blockchain/Wallets/TronWallet.php:92-142 | the lookups throw through. Heights start + 1 … current are requested in order, where start is the referenced block's number or the current height. The listing holds the window's records and LastBlock; the target defaults to 3 |
| TronWallet.NoReferenceScansNothing | app/Blockchain/Wallets/TronWallet.php:97-109 | with no reference the window is empty and the scan lists nothing |
| TronWallet.BlockRecordsMembership | app/Blockchain/Wallets/TronWallet.php:114-135 | a block yields a record iff it is the record of one of its transactions with a recipient and enough confirmations |
| TronWallet.WindowMembership | app/Blockchain/Wallets/TronWallet.php:109-136 | a successful scan lists a record iff it comes from such a transaction at a height of the window |
| TronWallet.ListedRecordsAreConfirmed | app/Blockchain/Wallets/TronWallet.php:115-132 | every listed record lies in the window and has confirmations = current − blocknum + 1 ≥ target |
| TronWallet.GetTransactionStatus | app/Blockchain/Wallets/TronWallet.php:85-89 | 'confirmed' iff ret[0].contractRet is exactly 'SUCCESS', else 'pending'; a failed request throws through |
| TronWallet.IsDepositConfirmed | app/Blockchain/Wallets/TronWallet.php:145-150 | false without a blockNumber; otherwise current − blockNumber ≥ required (no +1, default 3); the head is asked only when needed |
| TronWallet.ScannerCountsOneMoreThanTracker | app/Blockchain/Wallets/TronWallet.php:115-149 | a transaction the scanner records with exactly `target` confirmations fails `isDepositConfirmed` with requirement `target` and passes it with `target - 1` |
| TronWallet.GetBalance | app/Blockchain/Wallets/TronWallet.php:63-75 | 0 when the account has no 'balance' key, else fromTron of it |
| TronWallet.Matching | app/Blockchain/Wallets/TronWallet.php:168-170 | the kept entries are exactly those whose key loosely equals the token id |
| TronWallet.GetTokenBalance | app/Blockchain/Wallets/TronWallet.php:163-181 | 0 when assetV2 is missing or empty. 'Token id not found' iff no entry's key equals the id. Otherwise the value of the first matching entry, through fromTron when asked |
| TronWallet.FirstMatch | app/Blockchain/Wallets/TronWallet.php:168-176 | the filter is empty iff no entry matches, and its head is the first matching entry |
| UtxoWallet.DefaultConfirmations | app/Blockchain/Wallets/LitecoinWallet.php:42-47 | the defaults are 3 on Bitcoin and 6 on Litecoin |
| UtxoWallet.GetTransactionStatus | app/Blockchain/Wallets/BitcoinWallet.php:36-40 | 'confirmed' iff confirmations > 6 strictly, else 'pending' |
| UtxoWallet.IsDepositConfirmed | app/Blockchain/Wallets/BitcoinWallet.php:47-51 | confirmations ≥ the requirement, which defaults to the chain's default |
| UtxoWallet.DepositConfirmedBeforeStatus | app/Blockchain/Wallets/LitecoinWallet.php:36-51 | from the default up to 6 confirmations, the deposit is confirmed while the status is still 'pending' |
| UtxoWallet.ConfirmedStatusImpliesDeposit | app/Blockchain/Wallets/BitcoinWallet.php:36-51 | a 'confirmed' status implies a confirmed deposit with the default requirement |
| UtxoWallet.ListSinceBlock | app/Blockchain/Wallets/BitcoinWallet.php:42-45 | one client call with the blockhash unchanged, the target as given (else the default), and watch-only as given (else false) |
| UtxoWallet.CreateWallet | app/Blockchain/Wallets/BitcoinWallet.php:17-24 | a one-member array whose 'address' is the client's new address for the label |
| UtxoWallet.CreateWalletOnlyAddress | app/Blockchain/Wallets/BitcoinWallet.php:17-24 | the wallet has no key other than 'address' |
| UtxoWallet.GetBalance | app/Blockchain/Wallets/BitcoinWallet.php:26-29 | the client's answer, unchanged |
| UtxoWallet.SendTransaction | app/Blockchain/Wallets/BitcoinWallet.php:31-34 | the client's answer for the same arguments, unchanged |
| WalletFactory.CreateWalletInstance | app/Blockchain/Factory/WalletFactory.php:15-32 | the first symbol the value loosely equals picks the adapter; none gives InvalidArgumentException 'Unsupported wallet type: …' |
| WalletFactory.StringDispatch | app/Blockchain/Factory/WalletFactory.php:17-30 | on strings, success iff the string is one of the five symbols, each with its own adapter, else the exception naming the string |
| WalletFactory.DispatchIsInjective | app/Blockchain/Factory/WalletFactory.php:17-27 | different accepted symbols build different adapters |
| WalletFactory.DispatchExamples | app/Blockchain/Factory/WalletFactory.php:17-30 | 'btc' and 'DOGE' are rejected, `true` builds a Bitcoin adapter, and null is rejected with an empty type |
| EncryptionHelper.NumberFormat | app/Blockchain/Helpers/EncryptionHelper.php:41 | the rendering has exactly `decimals` fraction digits and at least one integer digit |
| EncryptionHelper.ShiftIsExactProduct | app/Blockchain/Helpers/EncryptionHelper.php:41-42 | bcmul's shift of the rendered digits is the rendered number times 10^decimals, exactly |
| EncryptionHelper.NumberFormatScaled | app/Blockchain/Helpers/EncryptionHelper.php:41-42 | the product is balance × 10^decimals rounded half away from zero |
| EncryptionHelper.IsZeroBalanceIffBelowHalfUnit | app/Blockchain/Helpers/EncryptionHelper.php:39-45 | zero iff the balance is less than half a smallest unit away from 0 |
| EncryptionHelper.SmallestUnitsRoundTrip | app/Blockchain/Helpers/EncryptionHelper.php:39-45 | an amount of n smallest units scales back to exactly n, so it is zero iff n = 0 |
| EncryptionHelper.ZeroIffEveryDigitZero | app/Blockchain/Helpers/EncryptionHelper.php:41-44 | zero iff every rendered digit, before and after the point, is 0 |
| EncryptionHelper.DefaultPrecisionExamples | app/Blockchain/Helpers/EncryptionHelper.php:39-45 | at the default 18 decimals: 0 is zero, one wei is not, and a tenth of a wei is |
| EncryptionHelper.EnvValue | app/Blockchain/Helpers/EncryptionHelper.php:22 | `env()` reads true, false, empty and null, bare or in parentheses and in any case, as true, false, '' and null; strips matching quotes; returns other text unchanged and an unset variable as null |
| EncryptionHelper.GetEncryptionKey | app/Blockchain/Helpers/EncryptionHelper.php:20-27 | throws 'Custom encryption key is not set' iff the value `env()` gives is falsy; otherwise the key is base64_decode of its text |
| EncryptionHelper.KeyIsSetIff | app/Blockchain/Helpers/EncryptionHelper.php:22-25 | a variable gives a key iff it is the word true, or none of `env()`'s words and its unquoted text is neither '' nor '0' |
| EncryptionHelper.FalsyWordsAreNoKey | app/Blockchain/Helpers/EncryptionHelper.php:22-25 | 'false', '(FALSE)', 'Null' and 'empty' leave the key unset |
| EncryptionHelper.OtherTextsAndKey | app/Blockchain/Helpers/EncryptionHelper.php:22-27 | an unset variable, '', '0' and a quoted empty text leave the key unset; 'true' gives the key text '1' |
| EncryptionHelper.Encrypter.constructor | app/Blockchain/Helpers/EncryptionHelper.php:15 | an encrypter the framework accepted holds the key and cipher it was given |
| EncryptionHelper.EncryptionHelper.constructor | app/Blockchain/Helpers/EncryptionHelper.php:9 | the cache starts empty |
| EncryptionHelper.EncryptionHelper.GetEncrypter | app/Blockchain/Helpers/EncryptionHelper.php:11-27 | a cached encrypter is returned unchanged. A falsy key throws 'Custom encryption key is not set'; a construction the framework refuses throws what it threw; both leave the cache empty. Otherwise a fresh encrypter with the decoded key and cipher '' is cached and returned |
| EncryptionHelper.RepeatedGetEncrypter | app/Blockchain/Helpers/EncryptionHelper.php:11-18 | after a successful call, the next call returns the same object whatever the key is then; when the framework refuses the cipher '' for every key, both calls throw and nothing is cached |
| AggregatedMetricDto.Dto.ToArray | app/DTOs/AggregatedMetricDTO.php:11-14 | the array given at construction, element by element |
| AggregatedMetricDto.Dto.Get | app/DTOs/AggregatedMetricDTO.php:16-19 | null iff no field has the name; otherwise the value of the first field with it |
| AggregatedMetricDto.GetStored | app/DTOs/AggregatedMetricDTO.php:16-19 | with distinct keys, every stored field reads back as its value |
| MetricAggregation.FilterMetricsForPeriod | app/Services/MetricAggregationService.php:78-94 | throws 'Невідомий тип групування: …' iff there is a metric to test and the grouping is unknown |
| MetricAggregation.FilterSelectsGroup | app/Services/MetricAggregationService.php:83-93 | the group is exactly the fetched metrics in the date's group, each as often as it was fetched |
| MetricAggregation.MinValue | app/Services/MetricAggregationService.php:63 | the minimum is one of the values and no value is below it |
| MetricAggregation.MaxValue | app/Services/MetricAggregationService.php:64 | the maximum is one of the values and no value is above it |
| MetricAggregation.AggregateMetricsFails | app/Services/MetricAggregationService.php:22-38 | aggregation throws iff the period has a day, some metric was fetched and the grouping is unknown; with no metrics the result is empty of errors |
| MetricAggregation.DefaultGroupingNeverFails | app/Services/MetricAggregationService.php:22-26 | with the default grouping 'daily' the aggregation never throws |
| MetricAggregation.AggregateMetricsEntries | app/Services/MetricAggregationService.php:33-67 | every output entry is a day of the period whose group is non-empty, carrying the aggregate of that group |
| MetricAggregation.AggregateMetricsOrdered | app/Services/MetricAggregationService.php:33-37 | output entries are days of the period, in period order, each at most once |
| MetricAggregation.AggregateMetricsComplete | app/Services/MetricAggregationService.php:33-37 | every day with a non-empty group has an entry |
| MetricAggregation.AverageWithinBounds | app/Services/MetricAggregationService.php:61-64 | min ≤ average ≤ max for every non-empty group |
| MetricAggregation.AggregateIsConsistent | app/Services/MetricAggregationService.php:59-67 | the aggregate's period is the day as 'Y-m-d', its count is the group's size, its metrics are the group, min/average/max read back, and min ≤ average ≤ max |
| MetricAggregation.SameGroupSameFilter | app/Services/MetricAggregationService.php:83-93 | two dates that admit the same metrics select the same group |
| MetricAggregation.MonthlyDaysAgree | app/Services/MetricAggregationService.php:90 | under 'monthly', days of one month get the same group and the same total, count, min and max |
| MetricAggregation.GroupKeys | app/Services/MetricAggregationService.php:86-90 | on valid dates: hourly compares date and hour, daily the date, weekly only the week number, monthly year and month |
| MetricAggregation.MonthTextExact | app/Services/MetricAggregationService.php:90 | 'Y-m' of two valid dates is equal iff year and month are |
| MetricAggregation.DateTextExact | app/Services/MetricAggregationService.php:88 | 'Y-m-d' of two valid dates is equal iff year, month and day are |
| MetricAggregation.HourTextExact | app/Services/MetricAggregationService.php:87 | 'Y-m-d H' of two valid dates is equal iff year, month, day and hour are |
| Numerals.PrefixedDecHexRoundTrip | app/Blockchain/Wallets/BinanceSmartChainWallet.php:213 | a height sent as '0x' . dechex(n) reads back with hexdec as n, within 64 bits |
| Numerals.PrefixedDecHexOfNegative | app/Blockchain/Wallets/BinanceSmartChainWallet.php:209-213 | a negative height (start below target) is sent as n + 2^64 |

## Left out

- Floating point: amounts, wei-to-unit division, the fee mean and metric values are exact reals or integers. `(float)`, `intval` on floats and float rounding are not modelled.
- The HTTP transports (curl, Guzzle), `json_decode` and the JSON encoding of requests: an exchange is an input, either the decoded body or the transport's failure.
- The Bitcoin, Litecoin and Tron client libraries (including `fromTron`, `fromHex` and `toHex`) are uninterpreted functions or answers; `getAccount`'s address conversion and the request it makes are not modelled, and the account is an input.
- Key generation, address derivation and transaction signing (`createWallet` and `sendTransaction` of the EVM adapters and of Tron, `keccak256`, `getNetworkId`) depend on elliptic-curve and hashing libraries and are not modelled.
- The EVM adapters' `getBalance` is a float division and is not modelled.
- Tron's constructor and the EVM constructors' configuration reading: the configured confirmations of the Binance Smart Chain adapter is an input.
- `encrypt` and `decrypt` use Laravel's AES encrypter and are not modelled; `base64_decode` and the environment variable's raw text are inputs.
- EncryptionHelper.Encrypter.constructor: the framework's `Encrypter` constructor is not part of this model. Whether it accepts a key and cipher is the `construct` input of `GetEncrypter`; the framework's own check rejects the empty cipher, so with that input every call that reaches construction throws and nothing is cached.
- Logging and the pause between receipt requests are not modelled.
- app/Jobs/LargeDataExportJob.php, app/Models/Metrics.php and app/Blockchain/Contracts/WalletInterface.php are not part of this model.
- The database query and Carbon: the period is given as its sequence of days, and each date carries its year, month, day, hour and week of the year; the metrics are those fetched for the period.
- MetricAggregation.FilterMetricsForPeriod: the metrics field holds the group as a sequence; the keys the collection keeps are not modelled, and output entries carry the day's position instead of a collection key.
- Loose comparison of numeric strings with a sign, a fraction, an exponent or surrounding spaces (' 56', '56.0', '+1') is not modelled; such strings compare as non-numeric.
- Binance Smart Chain's `listSinceBlock` with a numeric-string reference: the reference is taken as an integer, so a string such as '0x10' that PHP calls non-numeric is a None reference.
- Request ids inside the wallet methods are not tracked; each request's answer is given.
- `NumberOf` reads integers, booleans and null; strings and floats in arithmetic read as 0, and `strlen` of an array is taken as the length of its string conversion.
- `HexDecOf` of a float is 0, where PHP reads the float's printed text digit by digit (1.5 as 0x15); `hexdec` of an array is 0, where PHP 8 throws a TypeError.
- `TextOf` of a float is '', where PHP prints the float's decimal text in 'Unknown network (ID: …)' and 'Unsupported wallet type: …'.
- An explicitly passed null for an argument with a default (other than `??` defaults) is treated as the default.
- A metric whose value is null is not modelled; `sum`, `min` and `max` see every metric.
- Reading a member of a value that is not an array (a string offset) gives null.
